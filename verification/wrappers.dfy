/** Small shared helpers: an optional value (the source's `T | null`) and
    substring search on strings (JavaScript's `String.prototype.includes`). */
module Wrappers {

  /** A value that may be absent; `None` plays the part of JavaScript's `null`. */
  datatype Option<+T> = None | Some(value: T)

  /** `sub` occurs in `s` starting at position `i`. */
  predicate OccursAt(s: string, sub: string, i: nat)
  {
    i + |sub| <= |s| && s[i..i + |sub|] == sub
  }

  /** `s.includes(sub)`: `sub` occurs somewhere in `s` (the empty string occurs everywhere). */
  predicate Contains(s: string, sub: string)
  {
    exists i: nat | i <= |s| :: OccursAt(s, sub, i)
  }

  /** A message that contains a longer phrase also contains every prefix of that phrase. */
  lemma {:induction false} ContainsPrefix(s: string, prefix: string, rest: string)
    requires Contains(s, prefix + rest)
    ensures Contains(s, prefix)
  {
    var whole := prefix + rest;
    var i: nat :| i <= |s| && OccursAt(s, whole, i);
    assert s[i..i + |prefix|] == whole[..|prefix|] == prefix;
    assert OccursAt(s, prefix, i);
  }
}
