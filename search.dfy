/**
 * First-occurrence search in a sequence, the common core of Python's
 * `list.index` (which raises `ValueError` when the value is absent) and
 * `str.find` (which returns -1 when the character is absent).
 */
module Search {

  datatype Option<T> = None | Some(value: T)

  /** The position of the first `x` in `s` at or after `from`, if any. */
  function FirstIndexFrom<T(==)>(s: seq<T>, x: T, from: nat): (r: Option<nat>)
    requires from <= |s|
    ensures r.None? <==> x !in s[from..]
    ensures r.Some? ==> from <= r.value < |s| && s[r.value] == x && x !in s[from..r.value]
    decreases |s| - from
  {
    if from == |s| then None
    else if s[from] == x then Some(from)
    else FirstIndexFrom(s, x, from + 1)
  }

  /** The position of the first `x` in `s`, or `None` when `s` holds no `x`. */
  function FirstIndex<T(==)>(s: seq<T>, x: T): (r: Option<nat>)
    ensures r.None? <==> x !in s
    ensures r.Some? ==> r.value < |s| && s[r.value] == x && x !in s[..r.value]
  {
    assert s[0..] == s;
    FirstIndexFrom(s, x, 0)
  }

  /** Python's `str.find` for a single character: the first index, or -1. */
  function Find(s: string, c: char): (r: int)
    ensures -1 <= r < |s|
    ensures r == -1 <==> c !in s
    ensures r != -1 ==> s[r] == c && c !in s[..r]
  {
    match FirstIndex(s, c)
    case None => -1
    case Some(k) => k
  }

  /** The first occurrence is unique: any index meeting its description is it. */
  lemma FirstIndexUnique<T>(s: seq<T>, x: T, k: nat)
    requires k < |s| && s[k] == x && x !in s[..k]
    ensures FirstIndex(s, x) == Some(k)
  {
  }
}
