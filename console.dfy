/** The console relay's cutting rule: the text buffered from the server's
    standard output is sent in messages of at most 2000 characters, each cut
    at the last line break before the limit when there is one. */
module Console {

  import opened Bytes

  /** The longest message the console webhook is sent inside the loop. */
  const LIMIT: nat := 2000

  const NEWLINE: char := '\n'

  /** The highest index below `n` holding a line break. */
  function LastNewlineBelow(s: seq<char>, n: nat): (r: Option<nat>)
    requires n <= |s|
    ensures r.Some? ==> r.value < n && s[r.value] == NEWLINE
    ensures r.Some? ==> forall j :: r.value < j < n ==> s[j] != NEWLINE
    ensures r.None? ==> forall j :: 0 <= j < n ==> s[j] != NEWLINE
  {
    if n == 0 then None
    else if s[n - 1] == NEWLINE then Some(n - 1)
    else LastNewlineBelow(s, n - 1)
  }

  /** Where a remainder longer than the limit is cut: at the highest line
      break below index 2000, or at 2000 when there is none. */
  function Cut(s: seq<char>): (k: nat)
    requires |s| > LIMIT
    ensures k <= LIMIT
    ensures k < LIMIT ==> s[k] == NEWLINE
    ensures k == LIMIT ==> forall j :: 0 <= j < LIMIT ==> s[j] != NEWLINE
    ensures forall j :: k < j < LIMIT ==> s[j] != NEWLINE
  {
    match LastNewlineBelow(s, LIMIT)
    case Some(i) => i
    case None => LIMIT
  }

  /** What one flush of the buffer does: the messages sent inside the loop,
      the remainder the loop stopped at, and whether it stopped because the
      cut fell at index 0. With every send succeeding, such a cut sends an
      empty message and keeps the same remainder, so the loop never ends and
      the remainder is never sent; otherwise the remainder goes out as the
      final message. */
  datatype Flushed = Flushed(chunks: seq<seq<char>>, rest: seq<char>, stalled: bool)

  /** The messages one flush of `s` sends, with every send succeeding. */
  function Pieces(s: seq<char>): (r: Flushed)
    ensures r.stalled <==> |r.rest| > LIMIT
    ensures |r.rest| <= |s|
    decreases |s|
  {
    if |s| <= LIMIT then Flushed([], s, false)
    else
      var k := Cut(s);
      if k == 0 then Flushed([], s, true)
      else
        var r := Pieces(s[k..]);
        Flushed([s[..k]] + r.chunks, r.rest, r.stalled)
  }

  function Concat(ss: seq<seq<char>>): seq<char> {
    if ss == [] then [] else ss[0] + Concat(ss[1..])
  }

  lemma ConcatCons(c: seq<char>, ss: seq<seq<char>>, i: nat)
    requires i <= |ss|
    ensures Concat(([c] + ss)[..i + 1]) == c + Concat(ss[..i])
  {
    assert ([c] + ss)[..i + 1] == [c] + ss[..i];
    assert ([c] + ss[..i])[1..] == ss[..i];
  }

  /** One turn of the loop: a remainder over the limit with a cut past
      index 0 sends the cut and goes on with what follows it. */
  lemma PiecesStep(s: seq<char>)
    requires |s| > LIMIT && Cut(s) != 0
    ensures Pieces(s).chunks == [s[..Cut(s)]] + Pieces(s[Cut(s)..]).chunks
    ensures Pieces(s).rest == Pieces(s[Cut(s)..]).rest
    ensures Pieces(s).stalled == Pieces(s[Cut(s)..]).stalled
  {
  }

  lemma RejoinChunks(a: seq<char>, b: seq<char>, xs: seq<seq<char>>, rest: seq<char>)
    requires Concat(xs) + rest == b
    ensures Concat([a] + xs) + rest == a + b
  {
    assert ([a] + xs)[1..] == xs;
    assert Concat([a] + xs) == a + Concat(xs);
  }

  /** Nothing is lost or reordered: the messages sent inside the loop,
      followed by the remainder, spell out the buffer. */
  lemma {:induction false} PiecesJoin(s: seq<char>)
    ensures Concat(Pieces(s).chunks) + Pieces(s).rest == s
    decreases |s|
  {
    if |s| > LIMIT && Cut(s) != 0 {
      var k := Cut(s);
      PiecesJoin(s[k..]);
      PiecesStep(s);
      RejoinChunks(s[..k], s[k..], Pieces(s[k..]).chunks, Pieces(s[k..]).rest);
      assert s[..k] + s[k..] == s;
    }
  }

  /** Every message sent inside the loop holds between 1 and 2000
      characters; the remainder sent last holds at most 2000, and a stall
      happens exactly at a remainder over the limit whose only line break
      in its first 2000 characters is its first character. */
  lemma {:induction false} PiecesBounds(s: seq<char>)
    ensures forall c :: c in Pieces(s).chunks ==> 0 < |c| <= LIMIT
    ensures !Pieces(s).stalled ==> |Pieces(s).rest| <= LIMIT
    ensures Pieces(s).stalled ==>
      |Pieces(s).rest| > LIMIT && Pieces(s).rest[0] == NEWLINE &&
      forall j :: 0 < j < LIMIT ==> Pieces(s).rest[j] != NEWLINE
    decreases |s|
  {
    if |s| > LIMIT && Cut(s) != 0 {
      PiecesBounds(s[Cut(s)..]);
    }
  }

  /** `c` is the message cut from what is left of `s` after its first `o`
      characters, while more than the limit is left. */
  predicate CutAt(s: seq<char>, o: nat, c: seq<char>) {
    o + LIMIT < |s| && c == s[o..o + Cut(s[o..])]
  }

  /** Message `i` is the cut of what the earlier messages left over: the
      remainder at that point was over the limit, and the message runs up to
      (and excludes) its last line break below index 2000, or is its first
      2000 characters when it has none there. */
  lemma {:induction false} PiecesAreCuts(s: seq<char>, i: nat)
    requires i < |Pieces(s).chunks|
    ensures CutAt(s, |Concat(Pieces(s).chunks[..i])|, Pieces(s).chunks[i])
    decreases |s|
  {
    assert |s| > LIMIT && Cut(s) != 0;
    var k := Cut(s);
    PiecesStep(s);
    var xs := Pieces(s[k..]).chunks;
    if i == 0 {
      FirstCut(s, xs);
    } else {
      PiecesAreCuts(s[k..], i - 1);
      LaterCut(s, k, xs, i - 1);
    }
  }

  lemma FirstCut(s: seq<char>, xs: seq<seq<char>>)
    requires |s| > LIMIT
    ensures CutAt(s, |Concat(([s[..Cut(s)]] + xs)[..0])|, ([s[..Cut(s)]] + xs)[0])
  {
    assert ([s[..Cut(s)]] + xs)[..0] == [];
    assert s[0..] == s;
  }

  lemma LaterCut(s: seq<char>, k: nat, xs: seq<seq<char>>, i: nat)
    requires k <= |s| && i < |xs|
    requires CutAt(s[k..], |Concat(xs[..i])|, xs[i])
    ensures CutAt(s, |Concat(([s[..k]] + xs)[..i + 1])|, ([s[..k]] + xs)[i + 1])
  {
    ConcatCons(s[..k], xs, i);
    CutShift(s, k, |Concat(xs[..i])|, xs[i]);
  }

  /** A cut of what is left of `s[k..]` after `o` characters is a cut of what
      is left of `s` after `k + o`. */
  lemma CutShift(s: seq<char>, k: nat, o: nat, c: seq<char>)
    requires k <= |s| && CutAt(s[k..], o, c)
    ensures CutAt(s, k + o, c)
  {
    var t := s[k..][o..];
    assert t == s[k + o..];
    assert t[..Cut(t)] == s[k + o..k + o + Cut(t)];
  }

  /** Text without any line break goes out in messages of exactly 2000
      characters, and never stalls. */
  lemma {:induction false} NoNewlineFixedChunks(s: seq<char>)
    requires forall j :: 0 <= j < |s| ==> s[j] != NEWLINE
    ensures !Pieces(s).stalled
    ensures forall c :: c in Pieces(s).chunks ==> |c| == LIMIT
    decreases |s|
  {
    if |s| > LIMIT {
      assert Cut(s) == LIMIT;
      var t := s[LIMIT..];
      assert forall j :: 0 <= j < |t| ==> t[j] == s[LIMIT + j];
      NoNewlineFixedChunks(t);
    }
  }

  /** The index the loop cuts at, found by scanning down from index 1999
      for a line break. */
  method FindCut(s: seq<char>) returns (k: nat)
    requires |s| > LIMIT
    ensures k == Cut(s)
  {
    var j := LIMIT;
    while j > 0
      invariant 0 <= j <= LIMIT
      invariant LastNewlineBelow(s, j) == LastNewlineBelow(s, LIMIT)
    {
      j := j - 1;
      if s[j] == NEWLINE {
        return j;
      }
    }
    return LIMIT;
  }

  /** The loop state after sending `chunks` with `s` left: sending what
      `Pieces` describes for `s` completes the flush of `buf`. */
  predicate Splitting(buf: seq<char>, chunks: seq<seq<char>>, s: seq<char>) {
    Pieces(buf) == Flushed(chunks + Pieces(s).chunks, Pieces(s).rest, Pieces(s).stalled)
  }

  lemma SplitStep(buf: seq<char>, chunks: seq<seq<char>>, s: seq<char>)
    requires Splitting(buf, chunks, s) && |s| > LIMIT && Cut(s) != 0
    ensures Splitting(buf, chunks + [s[..Cut(s)]], s[Cut(s)..])
  {
    var k := Cut(s);
    var xs := Pieces(s[k..]).chunks;
    assert chunks + ([s[..k]] + xs) == (chunks + [s[..k]]) + xs;
    PiecesStep(s);
  }

  lemma SplitDone(buf: seq<char>, chunks: seq<seq<char>>, s: seq<char>)
    requires Splitting(buf, chunks, s) && (|s| <= LIMIT || Cut(s) == 0)
    ensures Pieces(buf) == Flushed(chunks, s, |s| > LIMIT)
  {
    assert chunks + [] == chunks;
  }

  /** The cutting loop of one flush: sends (collects) the cuts while more
      than 2000 characters remain, and stops at a cut of index 0 rather than
      spin on it. */
  method Split(buf: seq<char>) returns (r: Flushed)
    ensures r == Pieces(buf)
  {
    var s := buf;
    var chunks: seq<seq<char>> := [];
    assert chunks + Pieces(s).chunks == Pieces(s).chunks;
    while |s| > LIMIT
      invariant Splitting(buf, chunks, s)
      decreases |s|
    {
      var k := FindCut(s);
      if k == 0 {
        SplitDone(buf, chunks, s);
        return Flushed(chunks, s, true);
      }
      SplitStep(buf, chunks, s);
      chunks := chunks + [s[..k]];
      s := s[k..];
    }
    SplitDone(buf, chunks, s);
    r := Flushed(chunks, s, false);
  }

  /** The console task's text buffer. */
  class ConsoleBuffer {
    var buf: seq<char>

    constructor ()
      ensures buf == []
    {
      buf := [];
    }

    /** A line of output arrives from the server. */
    method Push(msg: seq<char>)
      modifies this
      ensures buf == old(buf) + msg
    {
      buf := buf + msg;
    }

    /** The flush the task does once 100 ms have passed since the last
        arrival: the messages are those `Pieces` describes and the buffer is
        emptied; after a stall the source never gets past the loop, so the
        buffer stays as it was. */
    method Flush() returns (r: Flushed)
      modifies this
      ensures r == Pieces(old(buf))
      ensures buf == if r.stalled then old(buf) else []
    {
      r := Split(buf);
      if !r.stalled {
        buf := [];
      }
    }
  }
}
