/** Byte-level building blocks shared by the log-line grammars and the
    death-template builder: the byte type, optional and panicking outcomes,
    prefix tests, maximal runs and first/last occurrence searches. */
module Bytes {

  /** One byte of a raw log line (Rust `u8`). */
  type Byte = b: int | 0 <= b < 256

  datatype Option<+T> = None | Some(value: T)

  /** The outcome of code that may also panic: `Done` with a value, `Failed`
      (the code reports failure the normal way), or `Panicked` (an `unwrap` of
      nothing, an arithmetic underflow, an out-of-bounds slice). */
  datatype Checked<+T> = Done(value: T) | Failed | Panicked

  /** The part of a `Checked` outcome that code which does not panic would keep. */
  function Recover<T>(c: Checked<T>): (r: Option<T>)
    ensures r.Some? <==> c.Done?
    ensures r.Some? ==> r.value == c.value
  {
    match c
    case Done(v) => Some(v)
    case _ => None
  }

  // Selected ASCII codes.
  const TAB: Byte := 9
  const LF: Byte := 10
  const FF: Byte := 12
  const CR: Byte := 13
  const SPACE: Byte := 32
  const QUOTE: Byte := 34
  const SLASH: Byte := 47
  const COLON: Byte := 58
  const LT: Byte := 60
  const GT: Byte := 62
  const LBRACKET: Byte := 91
  const RBRACKET: Byte := 93
  const UNDERSCORE: Byte := 95

  /** Rust's `<[u8]>::starts_with`. */
  predicate StartsWith(s: seq<Byte>, p: seq<Byte>) {
    |p| <= |s| && s[..|p|] == p
  }

  /** `p` occurs in `s` starting at index `i`. */
  predicate OccursAt(s: seq<Byte>, p: seq<Byte>, i: nat) {
    i + |p| <= |s| && s[i..i + |p|] == p
  }

  lemma StartsWithAt(s: seq<Byte>, p: seq<Byte>, i: nat)
    requires i <= |s|
    ensures StartsWith(s[i..], p) <==> OccursAt(s, p, i)
  {
    if i + |p| <= |s| {
      assert s[i..][..|p|] == s[i..i + |p|];
    }
  }

  lemma StartsWithExtend(a: seq<Byte>, rest: seq<Byte>, p: seq<Byte>)
    requires StartsWith(rest, p)
    ensures StartsWith(a + rest, a + p)
  {
    assert (a + rest)[..|a + p|] == a + rest[..|p|];
  }

  lemma StartsWithSplit(s: seq<Byte>, x: seq<Byte>, y: seq<Byte>)
    requires StartsWith(s, x + y)
    ensures StartsWith(s, x) && StartsWith(s[|x|..], y)
  {
    assert s[..|x|] == (x + y)[..|x|];
    assert s[|x|..][..|y|] == s[..|x + y|][|x|..];
  }

  /** Rust's `u8::is_ascii_whitespace`: space, tab, line feed, form feed and
      carriage return (vertical tab is not included). */
  predicate IsAsciiWhitespace(b: Byte) {
    b == SPACE || b == TAB || b == LF || b == FF || b == CR
  }

  predicate NotWhitespace(b: Byte) { !IsAsciiWhitespace(b) }

  predicate IsAsciiDigit(b: Byte) { 48 <= b <= 57 }

  predicate IsAsciiAlpha(b: Byte) { 65 <= b <= 90 || 97 <= b <= 122 }

  /** The length of the longest prefix of `s` whose bytes all satisfy `keep`
      (a `filter(..).repeated()` run, which never gives back what it took). */
  function Run(s: seq<Byte>, keep: Byte -> bool): (n: nat)
    ensures n <= |s|
    ensures forall i :: 0 <= i < n ==> keep(s[i])
    ensures n < |s| ==> !keep(s[n])
  {
    if s == [] || !keep(s[0]) then 0 else 1 + Run(s[1..], keep)
  }

  /** A run is determined by where the first rejected byte is. */
  lemma RunIs(s: seq<Byte>, keep: Byte -> bool, n: nat)
    requires n <= |s|
    requires forall i :: 0 <= i < n ==> keep(s[i])
    requires n < |s| ==> !keep(s[n])
    ensures Run(s, keep) == n
  {
  }

  /** The first occurrence of `p` in `s` at index `k` or later. */
  function FindFrom(s: seq<Byte>, p: seq<Byte>, k: nat): (r: Option<nat>)
    ensures r.Some? ==> k <= r.value && OccursAt(s, p, r.value)
    ensures r.Some? ==> forall j :: k <= j < r.value ==> !OccursAt(s, p, j)
    ensures r.None? ==> forall j :: k <= j ==> !OccursAt(s, p, j)
    decreases |s| - k
  {
    if k + |p| > |s| then None
    else if OccursAt(s, p, k) then Some(k)
    else FindFrom(s, p, k + 1)
  }

  /** `bstr`'s `find`: the first occurrence of `p` in `s`. */
  function Find(s: seq<Byte>, p: seq<Byte>): (r: Option<nat>)
    ensures r.Some? ==> OccursAt(s, p, r.value)
    ensures r.Some? ==> forall j :: 0 <= j < r.value ==> !OccursAt(s, p, j)
    ensures r.None? ==> forall j :: 0 <= j ==> !OccursAt(s, p, j)
  {
    FindFrom(s, p, 0)
  }

  /** `bstr`'s `rfind` of a one-byte needle, searching below index `n`. */
  function LastIndexBelow(s: seq<Byte>, b: Byte, n: nat): (r: Option<nat>)
    requires n <= |s|
    ensures r.Some? ==> r.value < n && s[r.value] == b
    ensures r.Some? ==> forall j :: r.value < j < n ==> s[j] != b
    ensures r.None? ==> forall j :: 0 <= j < n ==> s[j] != b
  {
    if n == 0 then None
    else if s[n - 1] == b then Some(n - 1)
    else LastIndexBelow(s, b, n - 1)
  }

  /** The last occurrence of byte `b` in `s`. */
  function LastIndex(s: seq<Byte>, b: Byte): (r: Option<nat>)
    ensures r.Some? ==> r.value < |s| && s[r.value] == b
    ensures r.Some? ==> forall j :: r.value < j < |s| ==> s[j] != b
    ensures r.None? ==> forall j :: 0 <= j < |s| ==> s[j] != b
  {
    LastIndexBelow(s, b, |s|)
  }

  /** Rust's `filter_map(..).collect()`: the values `f` keeps, in order. */
  function FilterMap<A, B>(f: A -> Option<B>, xs: seq<A>): (r: seq<B>)
    ensures |r| <= |xs|
  {
    if xs == [] then []
    else Kept(f, xs[0]) + FilterMap(f, xs[1..])
  }

  lemma {:induction false} FilterMapConcat<A, B>(f: A -> Option<B>, a: seq<A>, b: seq<A>)
    ensures FilterMap(f, a + b) == FilterMap(f, a) + FilterMap(f, b)
  {
    if a == [] {
      assert a + b == b;
    } else {
      assert (a + b)[1..] == a[1..] + b;
      FilterMapConcat(f, a[1..], b);
    }
  }

  lemma {:induction false} FilterMapMembers<A, B>(f: A -> Option<B>, xs: seq<A>, y: B)
    ensures y in FilterMap(f, xs) <==> exists i :: 0 <= i < |xs| && f(xs[i]) == Some(y)
  {
    if xs != [] {
      FilterMapMembers(f, xs[1..], y);
      if y in FilterMap(f, xs[1..]) {
        var i :| 0 <= i < |xs| - 1 && f(xs[1..][i]) == Some(y);
        assert xs[1..][i] == xs[i + 1];
      }
      if exists i :: 0 <= i < |xs| && f(xs[i]) == Some(y) {
        var i :| 0 <= i < |xs| && f(xs[i]) == Some(y);
        if i > 0 {
          assert xs[1..][i - 1] == xs[i];
        }
      }
    }
  }

  /** What `filter_map` keeps of one element. */
  function Kept<A, B>(f: A -> Option<B>, x: A): seq<B> {
    match f(x)
    case Some(y) => [y]
    case None => []
  }

  /** `filter_map` keeps order: what it keeps of the elements before `j`,
      then of element `j`, then of the elements after it. */
  lemma FilterMapSplit<A, B>(f: A -> Option<B>, xs: seq<A>, j: nat)
    requires j < |xs|
    ensures FilterMap(f, xs) == FilterMap(f, xs[..j]) + FilterMap(f, xs[j..])
    ensures FilterMap(f, xs[j..]) == Kept(f, xs[j]) + FilterMap(f, xs[j + 1..])
  {
    FilterMapHalves(f, xs, j);
    FilterMapAt(f, xs, j);
  }

  lemma FilterMapHalves<A, B>(f: A -> Option<B>, xs: seq<A>, j: nat)
    requires j <= |xs|
    ensures FilterMap(f, xs) == FilterMap(f, xs[..j]) + FilterMap(f, xs[j..])
  {
    assert xs[..j] + xs[j..] == xs;
    FilterMapConcat(f, xs[..j], xs[j..]);
  }

  lemma FilterMapAt<A, B>(f: A -> Option<B>, xs: seq<A>, j: nat)
    requires j < |xs|
    ensures FilterMap(f, xs[j..]) == Kept(f, xs[j]) + FilterMap(f, xs[j + 1..])
  {
    assert xs[j..][1..] == xs[j + 1..];
    FilterMapUncons(f, xs[j..]);
  }

  /** One more element: what `filter_map` keeps of it comes last. */
  lemma FilterMapSnoc<A, B>(f: A -> Option<B>, xs: seq<A>, i: nat)
    requires i < |xs|
    ensures FilterMap(f, xs[..i + 1]) == FilterMap(f, xs[..i]) + Kept(f, xs[i])
  {
    assert xs[..i + 1] == xs[..i] + [xs[i]];
    assert [xs[i]][1..] == [];
    FilterMapConcat(f, xs[..i], [xs[i]]);
    FilterMapUncons(f, [xs[i]]);
  }

  lemma FilterMapUncons<A, B>(f: A -> Option<B>, xs: seq<A>)
    requires xs != []
    ensures FilterMap(f, xs) == Kept(f, xs[0]) + FilterMap(f, xs[1..])
  {
  }
}
