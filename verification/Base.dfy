/** Datatypes and sequence helpers shared by every component. */
module Base {

  datatype Option<+T> = None | Some(value: T)

  type Byte = x: int | 0 <= x < 256

  type Bytes = seq<Byte>

  /** The last `n` elements of `s`, or all of `s` when it is shorter. */
  function LastN<T>(s: seq<T>, n: nat): seq<T> {
    if |s| <= n then s else s[|s| - n..]
  }

  function Filter<T>(p: T -> bool, s: seq<T>): seq<T> {
    if s == [] then [] else (if p(s[0]) then [s[0]] else []) + Filter(p, s[1..])
  }

  lemma {:induction false} FilterAppend<T>(p: T -> bool, s: seq<T>, t: seq<T>)
    ensures Filter(p, s + t) == Filter(p, s) + Filter(p, t)
  {
    if s == [] {
      assert s + t == t;
    } else {
      var first, rest := if p(s[0]) then [s[0]] else [], Filter(p, s[1..]);
      FilterAppend(p, s[1..], t);
      assert (s + t)[0] == s[0] && (s + t)[1..] == s[1..] + t;
      assert first + (rest + Filter(p, t)) == (first + rest) + Filter(p, t);
    }
  }

  lemma {:induction false} FilterAll<T>(p: T -> bool, s: seq<T>)
    requires forall x :: x in s ==> p(x)
    ensures Filter(p, s) == s
  {
    if s != [] {
      FilterAll(p, s[1..]);
      assert s == [s[0]] + s[1..];
    }
  }

  /** The sum of `f` over a sequence. */
  function Total<T>(f: T -> int, s: seq<T>): int {
    if s == [] then 0 else f(s[0]) + Total(f, s[1..])
  }

  lemma {:induction false} TotalUpdate<T>(f: T -> int, s: seq<T>, i: nat, x: T)
    requires i < |s|
    ensures Total(f, s[i := x]) == Total(f, s) - f(s[i]) + f(x)
  {
    if i > 0 {
      TotalUpdate(f, s[1..], i - 1, x);
      assert s[i := x][1..] == s[1..][i - 1 := x];
    } else {
      assert s[i := x][1..] == s[1..];
    }
  }

  lemma {:induction false} TotalNonNegative<T>(f: T -> int, s: seq<T>)
    requires forall i :: 0 <= i < |s| ==> f(s[i]) >= 0
    ensures Total(f, s) >= 0
  {
    if s != [] {
      TotalNonNegative(f, s[1..]);
    }
  }

  lemma {:induction false} TotalMember<T>(f: T -> int, s: seq<T>, i: nat)
    requires i < |s| && forall k :: 0 <= k < |s| ==> f(s[k]) >= 0
    ensures f(s[i]) <= Total(f, s)
  {
    TotalNonNegative(f, s[1..]);
    if i > 0 {
      TotalMember(f, s[1..], i - 1);
    }
  }

  lemma {:induction false} TotalAtMost<T>(f: T -> int, s: seq<T>, hi: int)
    requires forall i :: 0 <= i < |s| ==> f(s[i]) <= hi
    ensures Total(f, s) <= hi * |s|
  {
    if s != [] {
      TotalAtMost(f, s[1..], hi);
    }
  }
}
