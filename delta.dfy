/** The change records of src/delta.rs: an operation, the JSONPath it applies to, the
    values before and after, and a hash over the four other fields. */
module Deltas {
  import opened Json
  import Text

  datatype Operation = Add | Change | Delete

  /** The name each operation feeds to the hasher. */
  function OperationName(op: Operation): string {
    match op
    case Add => "Add"
    case Change => "Change"
    case Delete => "Delete"
  }

  /** Different operations feed different names, so the hash tells them apart. */
  lemma OperationNamesDistinct(a: Operation, b: Operation)
    ensures OperationName(a) == OperationName(b) ==> a == b
  {
  }

  datatype Delta = Delta(
    operation: Operation,
    path: string,
    oldValue: Value,
    newValue: Value,
    hash: string)

  /** The hasher's state is a 64-bit word. */
  const HashModulus: nat := 0x1_0000_0000_0000_0000

  /** One step of the stand-in hasher (64-bit FNV-1a over code points). */
  function Mix(h: bv64, x: bv64): bv64 {
    (h ^ x) * 0x100_0000_01b3
  }

  function MixText(h: bv64, s: string): bv64
    decreases |s|
  {
    if s == [] then h else MixText(Mix(h, s[0] as int as bv64), s[1..])
  }

  /** Each part is followed by a terminator, as `Hash for str` writes one, so that
      ("ab", "c") and ("a", "bc") are fed differently. */
  function MixParts(h: bv64, parts: seq<string>): bv64
    decreases |parts|
  {
    if parts == [] then h else MixParts(Mix(MixText(h, parts[0]), 0xff), parts[1..])
  }

  /** A deterministic 64-bit digest of a sequence of strings, standing in for
      `DefaultHasher`. */
  function Fingerprint(parts: seq<string>): (h: nat)
    ensures h < HashModulus
  {
    MixParts(0xcbf2_9ce4_8422_2325, parts) as int
  }

  /** `calculate_hash(&delta)`: what `Hash for Delta` feeds, the operation's name, the
      path and the two values rendered as JSON text; the stored hash is not fed. */
  function CalculateHash(d: Delta): (h: nat)
    ensures h < HashModulus
  {
    Fingerprint([OperationName(d.operation), d.path, ToText(d.oldValue), ToText(d.newValue)])
  }

  /** The hash as `u64::to_string` writes it. */
  function HashText(h: nat): (s: string)
    requires h < HashModulus
    ensures Text.AllDigits(s) && |s| >= 1
    ensures |s| > 1 ==> s[0] != '0'
    ensures Text.DigitsValue(s) == h
  {
    Text.DigitsRoundTrip(h);
    Text.NatToString(h)
  }

  /** `Delta::new`: the four fields as given and the decimal hash computed over them. */
  function NewDelta(operation: Operation, path: string, oldValue: Value, newValue: Value): (d: Delta)
    ensures d.operation == operation && d.path == path
    ensures d.oldValue == oldValue && d.newValue == newValue
    ensures d.hash == HashText(CalculateHash(d))
  {
    var d := Delta(operation, path, oldValue, newValue, "");
    HashIgnoresStoredHash(d, HashText(CalculateHash(d)));
    d.(hash := HashText(CalculateHash(d)))
  }

  /** The stored hash does not take part in its own computation. */
  lemma HashIgnoresStoredHash(d: Delta, h: string)
    ensures CalculateHash(d.(hash := h)) == CalculateHash(d)
  {
  }

  /** A delta's stored hash is the decimal hash of its own fields. */
  predicate HashConsistent(d: Delta) {
    d.hash == HashText(CalculateHash(d))
  }

  /** Two consistent deltas with the same operation, path and values are equal, hash
      included: the hash is a function of the other four fields. */
  lemma SameFieldsSameDelta(a: Delta, b: Delta)
    requires a.operation == b.operation && a.path == b.path
    requires a.oldValue == b.oldValue && a.newValue == b.newValue
    requires HashConsistent(a) && HashConsistent(b)
    ensures a == b
  {
  }
}
