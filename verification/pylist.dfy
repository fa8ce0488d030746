/** The parts of Python's list semantics that the line solver relies on:
    slice bounds that count from the end when negative and are clamped to
    the list, negative indexing, `[v] * n`, `reversed(...)`, and
    `next(i for i, x in enumerate(s) if x != v)`, whose StopIteration is
    `None` here. */
module PyList {

  datatype Option<T> = None | Some(value: T)

  /** The list position that the slice bound `i` denotes in a list of length `n`. */
  function Bound(i: int, n: nat): (b: nat)
    ensures b <= n
    ensures 0 <= i <= n ==> b == i
    ensures n < i ==> b == n
  {
    if i < 0 then (if i + n < 0 then 0 else i + n)
    else if i > n then n
    else i
  }

  /** `s[i:j]` */
  function Slice<T>(s: seq<T>, i: int, j: int): (r: seq<T>)
    ensures |r| == if Bound(i, |s|) <= Bound(j, |s|) then Bound(j, |s|) - Bound(i, |s|) else 0
    ensures 0 <= i <= j <= |s| ==> r == s[i..j]
  {
    var a, b := Bound(i, |s|), Bound(j, |s|);
    if a <= b then s[a..b] else []
  }

  /** The list position that the index `i` denotes; Python raises IndexError outside this range. */
  function Position(i: int, n: nat): (p: nat)
    requires -(n as int) <= i < n
    ensures p < n
    ensures 0 <= i ==> p == i
  {
    if i < 0 then i + n else i
  }

  /** `s[i]` */
  function Index<T>(s: seq<T>, i: int): T
    requires -|s| <= i < |s|
  {
    s[Position(i, |s|)]
  }

  /** The list `s` after `s[i] = v`. */
  function Update<T>(s: seq<T>, i: int, v: T): (r: seq<T>)
    requires -|s| <= i < |s|
    ensures |r| == |s|
  {
    s[Position(i, |s|) := v]
  }

  /** `[v] * n` */
  function Repeat<T>(v: T, n: nat): (r: seq<T>)
    ensures |r| == n
    ensures forall k :: 0 <= k < n ==> r[k] == v
  {
    if n == 0 then [] else [v] + Repeat(v, n - 1)
  }

  /** The list `s` after the slice assignment `s[lo:hi] = [v] * (hi - lo)`. */
  function AssignRun<T>(s: seq<T>, lo: nat, hi: nat, v: T): (r: seq<T>)
    requires lo <= hi <= |s|
    ensures |r| == |s|
    ensures forall k :: 0 <= k < |s| ==> r[k] == if lo <= k < hi then v else s[k]
  {
    s[..lo] + Repeat(v, hi - lo) + s[hi..]
  }

  /** `list(reversed(s))` */
  function Reversed<T>(s: seq<T>): (r: seq<T>)
    ensures |r| == |s|
    ensures forall k :: 0 <= k < |s| ==> r[k] == s[|s| - 1 - k]
  {
    if s == [] then [] else Reversed(s[1..]) + [s[0]]
  }

  /** `next(i for i, x in enumerate(s) if x != v)`; `None` when that raises StopIteration. */
  function FirstOther<T(==)>(s: seq<T>, v: T): (r: Option<nat>)
    ensures r.None? <==> forall k :: 0 <= k < |s| ==> s[k] == v
    ensures r.Some? ==> r.value < |s| && s[r.value] != v
    ensures r.Some? ==> forall k :: 0 <= k < r.value ==> s[k] == v
  {
    if s == [] then None
    else if s[0] != v then Some(0)
    else match FirstOther(s[1..], v)
      case None => None
      case Some(k) => Some(k + 1)
  }

  /** The first cell other than `v` is at `i` when `s[i]` differs from `v` and no earlier cell does. */
  lemma FirstOtherAt<T>(s: seq<T>, v: T, i: nat)
    requires i < |s| && s[i] != v
    requires forall k :: 0 <= k < i ==> s[k] == v
    ensures FirstOther(s, v) == Some(i)
  {
    var r := FirstOther(s, v);
    assert r.Some?;
  }
}
