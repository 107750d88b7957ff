/** `PatchOptions` (src/patcher.rs): the two switches taken by the patcher. `force` is
    carried but never read by the patching code; `omit_empty` makes deletions collapse
    emptied rows and makes `patch` prune empty values at the end. */
module Options {

  datatype PatchOptions = PatchOptions(force: bool, omitEmpty: bool)

  /** `PatchOptions::new`: both switches off. */
  function New(): (o: PatchOptions)
    ensures !o.force && !o.omitEmpty
  {
    PatchOptions(false, false)
  }

  /** `PatchOptions::default` is `new`. */
  function Default(): (o: PatchOptions)
    ensures o == New()
  {
    New()
  }

  /** The builder `force(..)`: sets `force`, keeps `omit_empty`. */
  function WithForce(o: PatchOptions, force: bool): (r: PatchOptions)
    ensures r.force == force && r.omitEmpty == o.omitEmpty
  {
    o.(force := force)
  }

  /** The builder `omit_empty(..)`: sets `omit_empty`, keeps `force`. */
  function WithOmitEmpty(o: PatchOptions, omitEmpty: bool): (r: PatchOptions)
    ensures r.omitEmpty == omitEmpty && r.force == o.force
  {
    o.(omitEmpty := omitEmpty)
  }

  /** The two builders set independent switches: applying them in either order gives the
      same options, and the options built from `new` are exactly the ones requested. */
  lemma BuildersCommute(o: PatchOptions, force: bool, omitEmpty: bool)
    ensures WithOmitEmpty(WithForce(o, force), omitEmpty) == WithForce(WithOmitEmpty(o, omitEmpty), force)
    ensures WithOmitEmpty(WithForce(New(), force), omitEmpty) == PatchOptions(force, omitEmpty)
  {
  }
}
