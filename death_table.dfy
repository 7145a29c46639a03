/** The death-template table built from the game's localization file: every
    line `  "death.<key>": "<template>",` whose template mentions the victim
    placeholder `%1$s` becomes a row (prefix, kind1, infix1, kind2, infix2,
    kind3, suffix), the placeholders sorted by where they first occur and the
    literal text between them sliced out. */
module DeathTable {
  import opened Bytes

  /** What a template slot captures (`DeathMessageComponent`). */
  datatype Kind = Victim | Attacker | Weapon | Empty

  /** One table row: a literal prefix, then three (slot, following literal)
      steps. */
  datatype Template = Template(prefix: seq<Byte>, kind1: Kind, infix1: seq<Byte>,
                               kind2: Kind, infix2: seq<Byte>,
                               kind3: Kind, suffix: seq<Byte>)

  const PERCENT: Byte := 37

  /** The placeholder a kind stands for in a template; nothing for `Empty`. */
  function Token(k: Kind): (r: seq<Byte>)
    ensures k != Empty ==> |r| == 4 && r[0] == PERCENT
    ensures k == Empty ==> r == []
  {
    match k
    case Victim => [37, 49, 36, 115]    // %1$s
    case Attacker => [37, 50, 36, 115]  // %2$s
    case Weapon => [37, 51, 36, 115]    // %3$s
    case Empty => []
  }

  const DEATH_KEY: seq<Byte> := [32, 32, 34, 100, 101, 97, 116, 104, 46]  // two spaces, then "death.
  const SEPARATOR: seq<Byte> := [COLON, SPACE, QUOTE]                      // : "

  // ------------------------------------------------------ template text

  /** The template text of a localization line, as written: lines that do
      not start with the death key or have no separator are skipped, and a
      line with no quote after the separator makes `rfind(..).unwrap()`
      panic. */
  function TemplateTextAsWritten(line: seq<Byte>): (r: Checked<seq<Byte>>)
    ensures r.Panicked? <==> StartsWith(line, DEATH_KEY) && Find(line, SEPARATOR).Some?
                              && QUOTE !in line[Find(line, SEPARATOR).value + |SEPARATOR|..]
  {
    if !StartsWith(line, DEATH_KEY) then Failed
    else match Find(line, SEPARATOR)
      case None => Failed
      case Some(i) =>
        var rest := line[i + |SEPARATOR|..];
        match LastIndex(rest, QUOTE)
        case None => Panicked
        case Some(q) => Done(rest[..q])
  }

  /** The template text of a localization line: the bytes after the first
      separator up to, and not including, the last quote. A line without a
      closing quote is skipped like any other line that is not an entry. */
  function TemplateText(line: seq<Byte>): (r: Option<seq<Byte>>)
    ensures r.Some? ==> StartsWith(line, DEATH_KEY) && Find(line, SEPARATOR).Some?
  {
    if !StartsWith(line, DEATH_KEY) then None
    else match Find(line, SEPARATOR)
      case None => None
      case Some(i) =>
        var rest := line[i + |SEPARATOR|..];
        match LastIndex(rest, QUOTE)
        case None => None
        case Some(q) => Some(rest[..q])
  }

  /** Where the corrected reading does not differ from the code as written. */
  lemma TemplateTextAgrees(line: seq<Byte>)
    ensures !TemplateTextAsWritten(line).Panicked? ==> TemplateText(line) == Recover(TemplateTextAsWritten(line))
    ensures TemplateTextAsWritten(line).Panicked? ==> TemplateText(line).None?
  {
  }

  /** The template text sits right after the first separator and is closed by
      the last quote of the line. */
  lemma TemplateTextShape(line: seq<Byte>, s: seq<Byte>)
    requires TemplateText(line) == Some(s)
    ensures StartsWith(line, DEATH_KEY)
    ensures var i := Find(line, SEPARATOR).value;
            StartsWith(line[i + |SEPARATOR|..], s + [QUOTE])
            && forall j :: i + |SEPARATOR| + |s| + 1 <= j < |line| ==> line[j] != QUOTE
  {
    var i := Find(line, SEPARATOR).value;
    var rest := line[i + |SEPARATOR|..];
    var q := LastIndex(rest, QUOTE).value;
    assert rest[..q + 1] == s + [QUOTE];
    forall j | i + |SEPARATOR| + |s| + 1 <= j < |line| ensures line[j] != QUOTE {
      assert line[j] == rest[j - i - |SEPARATOR|];
    }
  }

  /** The converse: a death entry whose first separator is followed by the
      text, a quote and no further quote has that template text. */
  lemma TemplateTextAccepted(line: seq<Byte>, i: nat, s: seq<Byte>, tail: seq<Byte>)
    requires StartsWith(line, DEATH_KEY) && Find(line, SEPARATOR) == Some(i)
    requires line[i + |SEPARATOR|..] == s + [QUOTE] + tail && QUOTE !in tail
    ensures TemplateText(line) == Some(s)
  {
    var rest := line[i + |SEPARATOR|..];
    assert rest[|s|] == QUOTE;
    forall j | |s| < j < |rest| ensures rest[j] != QUOTE {
      assert rest[j] == tail[j - |s| - 1];
    }
    LastIndexIs(rest, QUOTE, |s|);
    assert rest[..|s|] == s;
  }

  lemma LastIndexIs(s: seq<Byte>, b: Byte, q: nat)
    requires q < |s| && s[q] == b
    requires forall j :: q < j < |s| ==> s[j] != b
    ensures LastIndex(s, b) == Some(q)
  {
  }

  /** A line has a template text exactly when it starts with the death key,
      has a separator, and has a quote after the first separator. */
  lemma TemplateTextDefined(line: seq<Byte>)
    ensures TemplateText(line).Some? <==>
              StartsWith(line, DEATH_KEY) && Find(line, SEPARATOR).Some?
              && QUOTE in line[Find(line, SEPARATOR).value + |SEPARATOR|..]
  {
    if StartsWith(line, DEATH_KEY) && Find(line, SEPARATOR).Some? {
      var rest := line[Find(line, SEPARATOR).value + |SEPARATOR|..];
      if QUOTE in rest {
        var j :| 0 <= j < |rest| && rest[j] == QUOTE;
      }
    }
  }

  /** An entry whose template text is never closed: the code as written
      panics on it. */
  lemma UnclosedEntryPanics()
    ensures TemplateTextAsWritten(DEATH_KEY + [97, 34] + SEPARATOR + [98]).Panicked?
    ensures TemplateText(DEATH_KEY + [97, 34] + SEPARATOR + [98]).None?
  {
    var line := DEATH_KEY + [97, 34] + SEPARATOR + [98];
    assert line[..|DEATH_KEY|] == DEATH_KEY;
    assert OccursAt(line, SEPARATOR, 11);
    forall j | 0 <= j < 11 ensures !OccursAt(line, SEPARATOR, j) {
      assert line[j + 2] != QUOTE || line[j] != COLON;
    }
    assert Find(line, SEPARATOR) == Some(11);
    assert line[14..] == [98];
  }

  // ------------------------------------------------------------ slots

  /** A placeholder kind at a position of the template text. */
  datatype Slot = Slot(pos: nat, kind: Kind)

  /** Two different placeholders never overlap: each starts with `%` and no
      other byte of a placeholder is `%`. */
  lemma PlaceholdersApart(s: seq<Byte>, k1: Kind, k2: Kind, i: nat, j: nat)
    requires k1 != Empty && k2 != Empty && k1 != k2
    requires OccursAt(s, Token(k1), i) && OccursAt(s, Token(k2), j)
    ensures i + 4 <= j || j + 4 <= i
  {
    assert s[i] == Token(k1)[0] && s[i + 1] == Token(k1)[1] by {
      assert s[i] == s[i..i + 4][0] && s[i + 1] == s[i..i + 4][1];
    }
    assert s[j] == Token(k2)[0] && s[j + 1] == Token(k2)[1] by {
      assert s[j] == s[j..j + 4][0] && s[j + 1] == s[j..j + 4][1];
    }
    if i < j < i + 4 {
      PercentOnlyAtStart(s, k1, i, j);
    } else if j < i < j + 4 {
      PercentOnlyAtStart(s, k2, j, i);
    }
  }

  /** Inside an occurrence of a placeholder only its first byte is `%`. */
  lemma PercentOnlyAtStart(s: seq<Byte>, k: Kind, i: nat, j: nat)
    requires k != Empty && OccursAt(s, Token(k), i) && i < j < i + 4
    ensures s[j] != PERCENT
  {
    assert s[j] == s[i..i + 4][j - i];
  }

  /** Inserts a slot into a list ordered by position, in front of the first
      slot that starts later. */
  function Insert(x: Slot, xs: seq<Slot>): (r: seq<Slot>)
    ensures |r| == |xs| + 1
    ensures forall y :: y in r <==> y == x || y in xs
  {
    if xs == [] then [x]
    else if x.pos < xs[0].pos then [x] + xs
    else
      assert xs == [xs[0]] + xs[1..];
      [xs[0]] + Insert(x, xs[1..])
  }

  /** Present placeholders at their occurrences, in increasing position and
      at least a placeholder's width apart. */
  predicate Apart(s: seq<Byte>, xs: seq<Slot>) {
    (forall i :: 0 <= i < |xs| ==> xs[i].kind != Empty && OccursAt(s, Token(xs[i].kind), xs[i].pos))
    && (forall i, j :: 0 <= i < j < |xs| ==> xs[i].pos + 4 <= xs[j].pos)
  }

  lemma ApartCons(s: seq<Byte>, h: Slot, r: seq<Slot>)
    requires Apart(s, r) && h.kind != Empty && OccursAt(s, Token(h.kind), h.pos)
    requires forall y :: y in r ==> h.pos + 4 <= y.pos
    ensures Apart(s, [h] + r)
  {
    var c := [h] + r;
    forall i, j | 0 <= i < j < |c| ensures c[i].pos + 4 <= c[j].pos {
      assert c[j] == r[j - 1];
      if i > 0 {
        assert c[i] == r[i - 1];
      } else {
        assert r[j - 1] in r;
      }
    }
  }

  lemma ApartTail(s: seq<Byte>, xs: seq<Slot>)
    requires Apart(s, xs) && xs != []
    ensures Apart(s, xs[1..])
    ensures forall y :: y in xs[1..] ==> xs[0].pos + 4 <= y.pos
  {
    var tail := xs[1..];
    forall y | y in tail ensures xs[0].pos + 4 <= y.pos {
      var k :| 0 <= k < |tail| && tail[k] == y;
      assert y == xs[k + 1];
    }
    forall i, j | 0 <= i < j < |tail| ensures tail[i].pos + 4 <= tail[j].pos {
      assert tail[i] == xs[i + 1] && tail[j] == xs[j + 1];
    }
  }

  /** Inserting a placeholder of a new kind keeps the list apart. */
  lemma InsertApart(s: seq<Byte>, x: Slot, xs: seq<Slot>)
    requires Apart(s, xs)
    requires x.kind != Empty && OccursAt(s, Token(x.kind), x.pos)
    requires forall y :: y in xs ==> y.kind != x.kind
    ensures Apart(s, Insert(x, xs))
    decreases |xs|
  {
    if xs != [] {
      PlaceholdersApart(s, x.kind, xs[0].kind, x.pos, xs[0].pos);
      ApartTail(s, xs);
      if x.pos < xs[0].pos {
        ApartCons(s, x, xs);
      } else {
        InsertApart(s, x, xs[1..]);
        ApartCons(s, xs[0], Insert(x, xs[1..]));
      }
    }
  }

  /** The victim's slot and, when its placeholder occurs, the attacker's, in
      position order. */
  function WithAttacker(s: seq<Byte>, victim: nat): seq<Slot> {
    match Find(s, Token(Attacker))
    case Some(a) => Insert(Slot(a, Attacker), [Slot(victim, Victim)])
    case None => [Slot(victim, Victim)]
  }

  /** The placeholders present in template text `s`, in position order, each
      at its first occurrence; the victim's is at `victim`. */
  function Placed(s: seq<Byte>, victim: nat): seq<Slot> {
    match Find(s, Token(Weapon))
    case Some(w) => Insert(Slot(w, Weapon), WithAttacker(s, victim))
    case None => WithAttacker(s, victim)
  }

  /** A slot at the first occurrence of its kind's placeholder. */
  predicate AtFirst(s: seq<Byte>, y: Slot) {
    y.kind != Empty && Find(s, Token(y.kind)) == Some(y.pos)
  }

  lemma WithAttackerApart(s: seq<Byte>, victim: nat)
    requires Find(s, Token(Victim)) == Some(victim)
    ensures Apart(s, WithAttacker(s, victim)) && 1 <= |WithAttacker(s, victim)| <= 2
    ensures forall y :: y in WithAttacker(s, victim) <==> AtFirst(s, y) && y.kind != Weapon
  {
    var one := [Slot(victim, Victim)];
    if Find(s, Token(Attacker)).Some? {
      InsertApart(s, Slot(Find(s, Token(Attacker)).value, Attacker), one);
    }
  }

  /** The placed slots are exactly the placeholders that occur, each at its
      first occurrence, in increasing position and without overlap. */
  lemma PlacedApart(s: seq<Byte>, victim: nat)
    requires Find(s, Token(Victim)) == Some(victim)
    ensures Apart(s, Placed(s, victim)) && 1 <= |Placed(s, victim)| <= 3
    ensures forall y :: y in Placed(s, victim) <==> AtFirst(s, y)
  {
    WithAttackerApart(s, victim);
    if Find(s, Token(Weapon)).Some? {
      InsertApart(s, Slot(Find(s, Token(Weapon)).value, Weapon), WithAttacker(s, victim));
    }
  }

  /** The first position of a kind's placeholder, or the text length when it has none. */
  function PosOf(s: seq<Byte>, k: Kind): (r: nat)
    ensures Find(s, Token(k)).Some? ==> Find(s, Token(k)) == Some(r)
  {
    match Find(s, Token(k))
    case Some(p) => p
    case None => |s|
  }

  // --------------------------------------------------------- assembly

  /** Three slots over template text `s`: present ones first, in increasing
      position and a placeholder's width apart, then `Empty` ones at the end
      of the text. */
  predicate Arranged(s: seq<Byte>, ss: seq<Slot>) {
    |ss| == 3
    && (forall i :: 0 <= i < 3 ==> ss[i].pos <= |s|)
    && (forall i :: 0 <= i < 3 && ss[i].kind != Empty ==> OccursAt(s, Token(ss[i].kind), ss[i].pos))
    && (forall i :: 0 <= i < 3 && ss[i].kind == Empty ==> ss[i].pos == |s|)
    && (forall i, j :: 0 <= i < j < 3 && ss[i].kind != Empty ==> ss[i].pos + 4 <= ss[j].pos)
    && (forall i, j :: 0 <= i < j < 3 && ss[i].kind == Empty ==> ss[j].kind == Empty)
  }

  /** Present slots followed by `Empty` ones at the end of the text. */
  function SlotsPadded(s: seq<Byte>, xs: seq<Slot>): (r: seq<Slot>)
    requires |xs| <= 3
    ensures |r| == 3
    ensures forall i :: 0 <= i < |xs| ==> r[i] == xs[i]
    ensures forall i :: |xs| <= i < 3 ==> r[i] == Slot(|s|, Empty)
  {
    var e := Slot(|s|, Empty);
    if |xs| == 3 then xs
    else if |xs| == 2 then xs + [e]
    else if |xs| == 1 then xs + [e, e]
    else [e, e, e]
  }

  lemma PaddedArranged(s: seq<Byte>, xs: seq<Slot>)
    requires |xs| <= 3 && Apart(s, xs)
    ensures Arranged(s, SlotsPadded(s, xs))
  {
  }

  /** The literal after a slot, up to the next slot's position (empty after
      an `Empty` slot; for arranged slots the bounds always hold). */
  function Lit(s: seq<Byte>, a: Slot, next: nat): seq<Byte> {
    if a.kind == Empty || next < a.pos + 4 || |s| < next then [] else s[a.pos + 4..next]
  }

  /** The row for three slots over template text `s`. */
  function Assemble(s: seq<Byte>, ss: seq<Slot>): Template
    requires |ss| == 3
  {
    Template(if ss[0].pos <= |s| then s[..ss[0].pos] else s, ss[0].kind, Lit(s, ss[0], ss[1].pos),
             ss[1].kind, Lit(s, ss[1], ss[2].pos), ss[2].kind, Lit(s, ss[2], |s|))
  }

  /** The row cut from template text `s` whose victim placeholder first
      occurs at `victim`. */
  function Row(s: seq<Byte>, victim: nat): (r: Template)
    ensures StartsWith(s, r.prefix)
  {
    Assemble(s, SlotsPadded(s, Placed(s, victim)))
  }

  /** The table row for one localization line, if it is an entry with a
      victim placeholder. */
  function Entry(line: seq<Byte>): (r: Option<Template>)
    ensures r.Some? <==> TemplateText(line).Some? && Find(TemplateText(line).value, Token(Victim)).Some?
  {
    match TemplateText(line)
    case None => None
    case Some(s) =>
      match Find(s, Token(Victim))
      case None => None
      case Some(v) => Some(Row(s, v))
  }

  /** The template a row was cut from: the literals with the placeholders
      put back. */
  function Render(t: Template): seq<Byte> {
    t.prefix + Token(t.kind1) + t.infix1 + Token(t.kind2) + t.infix2 + Token(t.kind3) + t.suffix
  }

  /** The rows a matcher can rely on: a present first slot, a victim slot
      somewhere, each kind at most once, and `Empty` slots only at the end,
      followed by empty literals. */
  predicate WellFormed(t: Template) {
    t.kind1 != Empty
    && (t.kind2 == Empty ==> t.kind3 == Empty && t.infix2 == [])
    && (t.kind3 == Empty ==> t.suffix == [])
    && (t.kind2 != Empty ==> t.kind2 != t.kind1)
    && (t.kind3 != Empty ==> t.kind3 != t.kind1 && t.kind3 != t.kind2)
    && (t.kind1 == Victim || t.kind2 == Victim || t.kind3 == Victim)
  }

  lemma SlotSplit(s: seq<Byte>, a: Slot, next: nat)
    requires a.pos <= next <= |s|
    requires a.kind != Empty ==> a.pos + 4 <= next && OccursAt(s, Token(a.kind), a.pos)
    requires a.kind == Empty ==> a.pos == next
    ensures s[a.pos..next] == Token(a.kind) + Lit(s, a, next)
  {
    if a.kind != Empty {
      assert s[a.pos..next] == s[a.pos..a.pos + 4] + s[a.pos + 4..next];
    }
  }

  lemma AssembleRenders(s: seq<Byte>, ss: seq<Slot>)
    requires Arranged(s, ss)
    ensures Render(Assemble(s, ss)) == s
  {
    var p0, p1, p2 := ss[0].pos, ss[1].pos, ss[2].pos;
    SlotSplit(s, ss[0], p1);
    SlotSplit(s, ss[1], p2);
    SlotSplit(s, ss[2], |s|);
    var t := Assemble(s, ss);
    RejoinPieces(s, p0, p1, p2, t.prefix, Token(t.kind1), t.infix1, Token(t.kind2), t.infix2, Token(t.kind3), t.suffix);
  }

  lemma RejoinPieces(s: seq<Byte>, p0: nat, p1: nat, p2: nat,
               a: seq<Byte>, b: seq<Byte>, c: seq<Byte>, d: seq<Byte>, e: seq<Byte>, f: seq<Byte>, g: seq<Byte>)
    requires p0 <= p1 <= p2 <= |s|
    requires s[..p0] == a && s[p0..p1] == b + c && s[p1..p2] == d + e && s[p2..] == f + g
    ensures a + b + c + d + e + f + g == s
  {
    assert s[..p1] == s[..p0] + s[p0..p1];
    assert s[..p2] == s[..p1] + s[p1..p2];
    assert s == s[..p2] + s[p2..];
  }

  /** Placed slots that sit at first occurrences and apart have distinct kinds. */
  lemma ApartDistinct(s: seq<Byte>, xs: seq<Slot>)
    requires Apart(s, xs) && forall y :: y in xs ==> AtFirst(s, y)
    ensures forall i, j :: 0 <= i < j < |xs| ==> xs[i].kind != xs[j].kind
  {
    forall i, j | 0 <= i < j < |xs| ensures xs[i].kind != xs[j].kind {
      assert AtFirst(s, xs[i]) && AtFirst(s, xs[j]);
    }
  }

  lemma RowRenders(s: seq<Byte>, v: nat)
    requires Find(s, Token(Victim)) == Some(v)
    ensures Render(Row(s, v)) == s
  {
    PlacedApart(s, v);
    PaddedArranged(s, Placed(s, v));
    AssembleRenders(s, SlotsPadded(s, Placed(s, v)));
  }

  lemma RowWellFormed(s: seq<Byte>, v: nat)
    requires Find(s, Token(Victim)) == Some(v)
    ensures WellFormed(Row(s, v))
  {
    PlacedApart(s, v);
    var xs := Placed(s, v);
    PaddedArranged(s, xs);
    ApartDistinct(s, xs);
    var ss := SlotsPadded(s, xs);
    assert AtFirst(s, Slot(v, Victim));
    var i :| 0 <= i < |xs| && xs[i] == Slot(v, Victim);
    assert ss[i].kind == Victim;
  }

  /** Each present slot of `t` sits where its placeholder first occurs in
      `s`. */
  predicate Positioned(s: seq<Byte>, t: Template) {
    Find(s, Token(t.kind1)) == Some(|t.prefix|)
    && (t.kind2 != Empty ==> Find(s, Token(t.kind2)) == Some(|t.prefix| + 4 + |t.infix1|))
    && (t.kind3 != Empty ==> Find(s, Token(t.kind3)) == Some(|t.prefix| + 4 + |t.infix1| + 4 + |t.infix2|))
  }

  lemma RowPositions(s: seq<Byte>, v: nat)
    requires Find(s, Token(Victim)) == Some(v)
    ensures Positioned(s, Row(s, v))
  {
    PlacedApart(s, v);
    var xs := Placed(s, v);
    PaddedArranged(s, xs);
    var ss := SlotsPadded(s, xs);
    PaddedAtFirst(s, xs);
    assert ss[0] == xs[0];
    AssemblePositioned(s, ss);
  }

  lemma AssemblePositioned(s: seq<Byte>, ss: seq<Slot>)
    requires Arranged(s, ss) && ss[0].kind != Empty
    requires forall i :: 0 <= i < 3 && ss[i].kind != Empty ==> AtFirst(s, ss[i])
    ensures Positioned(s, Assemble(s, ss))
  {
    AssembleLengths(s, ss);
    assert AtFirst(s, ss[0]);
  }

  /** Where each slot of an assembled row starts, from the literal lengths. */
  lemma AssembleLengths(s: seq<Byte>, ss: seq<Slot>)
    requires Arranged(s, ss)
    ensures var t := Assemble(s, ss);
            |t.prefix| == ss[0].pos
            && (ss[0].kind != Empty ==> |t.prefix| + 4 + |t.infix1| == ss[1].pos)
            && (ss[1].kind != Empty ==> |t.prefix| + 4 + |t.infix1| + 4 + |t.infix2| == ss[2].pos)
  {
  }

  lemma PaddedAtFirst(s: seq<Byte>, xs: seq<Slot>)
    requires |xs| <= 3 && forall y :: y in xs ==> AtFirst(s, y)
    ensures forall i :: 0 <= i < 3 && SlotsPadded(s, xs)[i].kind != Empty ==> AtFirst(s, SlotsPadded(s, xs)[i])
  {
    var ss := SlotsPadded(s, xs);
    forall i | 0 <= i < 3 && ss[i].kind != Empty ensures AtFirst(s, ss[i]) {
      assert ss[i] in xs;
    }
  }

  lemma RowKinds(s: seq<Byte>, v: nat)
    requires Find(s, Token(Victim)) == Some(v)
    ensures var t := Row(s, v);
            forall k :: k != Empty ==> (Find(s, Token(k)).Some? <==> (k == t.kind1 || k == t.kind2 || k == t.kind3))
  {
    forall k | k != Empty
      ensures Find(s, Token(k)).Some? <==> (k == Row(s, v).kind1 || k == Row(s, v).kind2 || k == Row(s, v).kind3)
    {
      RowKind(s, v, k);
    }
  }

  lemma RowKind(s: seq<Byte>, v: nat, k: Kind)
    requires Find(s, Token(Victim)) == Some(v)
    requires k != Empty
    ensures var t := Row(s, v);
            Find(s, Token(k)).Some? <==> (k == t.kind1 || k == t.kind2 || k == t.kind3)
  {
    PlacedApart(s, v);
    var xs := Placed(s, v);
    KindListed(s, xs, k);
    PaddedKinds(s, xs, k);
    AssembleKinds(s, SlotsPadded(s, xs));
  }

  /** With the listed slots exactly those at first occurrences, a kind is
      listed exactly when its placeholder occurs. */
  lemma KindListed(s: seq<Byte>, xs: seq<Slot>, k: Kind)
    requires k != Empty && forall y :: y in xs <==> AtFirst(s, y)
    ensures Find(s, Token(k)).Some? <==> exists i :: 0 <= i < |xs| && xs[i].kind == k
  {
    if Find(s, Token(k)).Some? {
      var y := Slot(Find(s, Token(k)).value, k);
      assert AtFirst(s, y);
      var i :| 0 <= i < |xs| && xs[i] == y;
    } else {
      forall i | 0 <= i < |xs| ensures xs[i].kind != k {
        assert xs[i] in xs;
      }
    }
  }

  /** Padding adds only `Empty` slots. */
  lemma PaddedKinds(s: seq<Byte>, xs: seq<Slot>, k: Kind)
    requires |xs| <= 3 && k != Empty
    ensures (exists i :: 0 <= i < |xs| && xs[i].kind == k)
            <==> (SlotsPadded(s, xs)[0].kind == k || SlotsPadded(s, xs)[1].kind == k || SlotsPadded(s, xs)[2].kind == k)
  {
    var ss := SlotsPadded(s, xs);
    if exists i :: 0 <= i < |xs| && xs[i].kind == k {
      var i :| 0 <= i < |xs| && xs[i].kind == k;
      assert ss[i] == xs[i];
    }
    if ss[0].kind == k || ss[1].kind == k || ss[2].kind == k {
      var j :| 0 <= j < 3 && ss[j].kind == k;
      assert j < |xs| && xs[j] == ss[j];
    }
  }

  lemma AssembleKinds(s: seq<Byte>, ss: seq<Slot>)
    requires |ss| == 3
    ensures Assemble(s, ss).kind1 == ss[0].kind
    ensures Assemble(s, ss).kind2 == ss[1].kind
    ensures Assemble(s, ss).kind3 == ss[2].kind
  {
  }

  /** Putting the placeholders back into a row gives the template text it
      was built from. */
  lemma EntryRoundTrip(line: seq<Byte>, t: Template)
    requires Entry(line) == Some(t)
    ensures TemplateText(line).Some? && Render(t) == TemplateText(line).value
  {
    var s := TemplateText(line).value;
    RowRenders(s, Find(s, Token(Victim)).value);
  }

  /** Every row is well formed: the victim is present, no kind repeats, and
      the `Empty` slots are trailing with empty literals after them. */
  lemma EntryWellFormed(line: seq<Byte>, t: Template)
    requires Entry(line) == Some(t)
    ensures WellFormed(t)
  {
    var s := TemplateText(line).value;
    RowWellFormed(s, Find(s, Token(Victim)).value);
  }

  /** Each present slot sits where its placeholder first occurs in the
      template text. */
  lemma EntryPositions(line: seq<Byte>, t: Template)
    requires Entry(line) == Some(t)
    ensures TemplateText(line).Some? && Positioned(TemplateText(line).value, t)
  {
    var s, v := EntryIsRow(line, t);
    RowPositions(s, v);
  }

  /** A kind is in a row exactly when its placeholder occurs in the template
      text. */
  lemma EntryKinds(line: seq<Byte>, t: Template)
    requires Entry(line) == Some(t)
    ensures TemplateText(line).Some?
    ensures var s := TemplateText(line).value;
            forall k :: k != Empty ==> (Find(s, Token(k)).Some? <==> (k == t.kind1 || k == t.kind2 || k == t.kind3))
  {
    var s, v := EntryIsRow(line, t);
    RowKinds(s, v);
  }

  /** The converse of `EntryIsRow`: a template text with a victim
      placeholder gives its row, and the row renders back to the text. */
  lemma EntryAccepted(line: seq<Byte>, s: seq<Byte>, v: nat)
    requires TemplateText(line) == Some(s) && Find(s, Token(Victim)) == Some(v)
    ensures Entry(line) == Some(Row(s, v))
    ensures Render(Row(s, v)) == s
  {
    RowRenders(s, v);
  }

  /** An entry is the row of its template text at its victim placeholder. */
  lemma EntryIsRow(line: seq<Byte>, t: Template) returns (s: seq<Byte>, v: nat)
    requires Entry(line) == Some(t)
    ensures TemplateText(line) == Some(s)
    ensures Find(s, Token(Victim)) == Some(v)
    ensures t == Row(s, v)
  {
    s := TemplateText(line).value;
    v := Find(s, Token(Victim)).value;
  }

  // ------------------------------------------------------------ builder

  /** The nested comparisons that insert the attacker's and the weapon's
      placeholders into `first`, `second` and `third`; unused slots stay
      `Empty` at the end of the text. */
  method InsertSlots(s: seq<Byte>, v: nat) returns (first: Slot, second: Slot, third: Slot)
    ensures [first, second, third] == SlotsPadded(s, Placed(s, v))
  {
    first := Slot(v, Victim);
    second := Slot(|s|, Empty);
    third := Slot(|s|, Empty);
    var attacker := Find(s, Token(Attacker));
    if attacker.Some? {
      var a := attacker.value;
      if a < first.pos {
        second := first;
        first := Slot(a, Attacker);
      } else {
        second := Slot(a, Attacker);
        InsertLast(Slot(a, Attacker), Slot(v, Victim));
      }
    }
    assert WithAttacker(s, v) == if second.kind == Empty then [first] else [first, second];
    var weapon := Find(s, Token(Weapon));
    if weapon.Some? {
      var w := weapon.value;
      if second.kind == Empty {
        if w < first.pos {
          second := first;
          first := Slot(w, Weapon);
        } else {
          second := Slot(w, Weapon);
          InsertLast(Slot(w, Weapon), first);
        }
      } else {
        if w < first.pos {
          third := second;
          second := first;
          first := Slot(w, Weapon);
        } else if w < second.pos {
          third := second;
          second := Slot(w, Weapon);
          InsertMiddle(Slot(w, Weapon), first, third);
        } else {
          third := Slot(w, Weapon);
          InsertLast(Slot(w, Weapon), second);
          assert [first, second][1..] == [second];
        }
      }
    }
  }

  lemma InsertLast(x: Slot, y: Slot)
    requires y.pos <= x.pos
    ensures Insert(x, [y]) == [y, x]
  {
    assert [y][1..] == [];
  }

  lemma InsertMiddle(x: Slot, y: Slot, z: Slot)
    requires y.pos <= x.pos < z.pos
    ensures Insert(x, [y, z]) == [y, x, z]
  {
    assert [y, z][1..] == [z];
  }

  /** The facts about three arranged slots that the builder's slicing needs. */
  lemma ArrangedThree(s: seq<Byte>, a: Slot, b: Slot, c: Slot)
    requires Arranged(s, [a, b, c])
    ensures a.kind != Empty ==> a.pos + 4 <= b.pos <= |s|
    ensures b.kind != Empty ==> b.pos + 4 <= c.pos <= |s|
    ensures c.kind != Empty ==> c.pos + 4 <= |s|
    ensures a.kind == Empty ==> a.pos == |s|
    ensures b.kind == Empty ==> b.pos == |s|
    ensures c.kind == Empty ==> c.pos == |s|
  {
    var ss := [a, b, c];
    assert ss[0] == a && ss[1] == b && ss[2] == c;
    if c.kind != Empty {
      assert OccursAt(s, Token(c.kind), c.pos);
    }
  }

  /** The builder's guarded slice is the literal after a slot. */
  lemma GuardedLit(s: seq<Byte>, a: Slot, next: nat)
    requires a.kind != Empty ==> a.pos + 4 <= next <= |s|
    requires a.kind == Empty ==> a.pos == |s|
    ensures a.pos + 4 < |s| ==> a.pos + 4 <= next <= |s|
    ensures (if a.pos + 4 < |s| then s[a.pos + 4..next] else []) == Lit(s, a, next)
  {
  }

  /** One `filter_map` step of the table builder: the template text of an
      entry, its slots, and the literals between them, sliced out where a
      slot leaves room for one. */
  method BuildEntry(line: seq<Byte>) returns (r: Option<Template>)
    ensures r == Entry(line)
  {
    var text := TemplateText(line);
    if text.None? {
      return None;
    }
    var s := text.value;
    var victim := Find(s, Token(Victim));
    if victim.None? {
      return None;
    }
    var t := BuildRow(s, victim.value);
    r := Some(t);
  }

  /** The slicing of one row out of its template text. */
  method BuildRow(s: seq<Byte>, v: nat) returns (t: Template)
    requires Find(s, Token(Victim)) == Some(v)
    ensures t == Row(s, v)
  {
    var first, second, third := InsertSlots(s, v);
    SlotBounds(s, v, first, second, third);
    GuardedLit(s, first, second.pos);
    GuardedLit(s, second, third.pos);
    GuardedLit(s, third, |s|);
    var infix1 := if first.pos + 4 < |s| then s[first.pos + 4..second.pos] else [];
    var infix2 := if second.pos + 4 < |s| then s[second.pos + 4..third.pos] else [];
    var suffix := if third.pos + 4 < |s| then s[third.pos + 4..] else [];
    assert infix1 == Lit(s, first, second.pos) && infix2 == Lit(s, second, third.pos);
    assert suffix == Lit(s, third, |s|);
    t := Template(s[..first.pos], first.kind, infix1, second.kind, infix2, third.kind, suffix);
    assert t == Template(s[..first.pos], first.kind, Lit(s, first, second.pos), second.kind,
                         Lit(s, second, third.pos), third.kind, Lit(s, third, |s|));
    RowSlots(s, v, first, second, third, t);
  }

  /** The bounds the builder's slicing relies on, for the slots of a row. */
  lemma SlotBounds(s: seq<Byte>, v: nat, a: Slot, b: Slot, c: Slot)
    requires Find(s, Token(Victim)) == Some(v)
    requires [a, b, c] == SlotsPadded(s, Placed(s, v))
    ensures a.kind != Empty ==> a.pos + 4 <= b.pos <= |s|
    ensures b.kind != Empty ==> b.pos + 4 <= c.pos <= |s|
    ensures c.kind != Empty ==> c.pos + 4 <= |s|
    ensures a.kind == Empty ==> a.pos == |s|
    ensures b.kind == Empty ==> b.pos == |s|
    ensures c.kind == Empty ==> c.pos == |s|
  {
    PlacedApart(s, v);
    PaddedArranged(s, Placed(s, v));
    ArrangedThree(s, a, b, c);
  }

  /** A row spelled out from its three slots. */
  lemma RowSlots(s: seq<Byte>, v: nat, a: Slot, b: Slot, c: Slot, t: Template)
    requires [a, b, c] == SlotsPadded(s, Placed(s, v))
    requires a.pos <= |s|
    requires t == Template(s[..a.pos], a.kind, Lit(s, a, b.pos), b.kind, Lit(s, b, c.pos), c.kind, Lit(s, c, |s|))
    ensures t == Row(s, v)
  {
    AssembleThree(s, a, b, c);
  }

  lemma AssembleThree(s: seq<Byte>, a: Slot, b: Slot, c: Slot)
    requires a.pos <= |s|
    ensures Assemble(s, [a, b, c])
            == Template(s[..a.pos], a.kind, Lit(s, a, b.pos), b.kind, Lit(s, b, c.pos), c.kind, Lit(s, c, |s|))
  {
    var ss := [a, b, c];
    assert ss[0] == a && ss[1] == b && ss[2] == c;
  }

  /** The rows of the localization lines that are entries, in line order. */
  function Table(lines: seq<seq<Byte>>): (table: seq<Template>)
    ensures |table| <= |lines|
  {
    FilterMap(Entry, lines)
  }

  /** The table keeps line order: the rows of the lines before `j` come
      first, then the row of line `j` if it is an entry, then the rows of the
      later lines. */
  lemma TableOrder(lines: seq<seq<Byte>>, j: nat)
    requires j < |lines|
    ensures Table(lines) == Table(lines[..j]) + Table(lines[j..])
    ensures Table(lines[j..]) == Kept(Entry, lines[j]) + Table(lines[j + 1..])
  {
    FilterMapSplit(Entry, lines, j);
  }

  /** Every row of the table is the row of some line, and is well formed. */
  lemma TableRows(lines: seq<seq<Byte>>, t: Template)
    requires t in Table(lines)
    ensures exists i :: 0 <= i < |lines| && Entry(lines[i]) == Some(t)
    ensures WellFormed(t)
  {
    FilterMapMembers(Entry, lines, t);
    var i :| 0 <= i < |lines| && Entry(lines[i]) == Some(t);
    EntryWellFormed(lines[i], t);
  }

  /** Every line that is an entry gives a row of the table. */
  lemma TableKeeps(lines: seq<seq<Byte>>, i: nat)
    requires i < |lines| && Entry(lines[i]).Some?
    ensures Entry(lines[i]).value in Table(lines)
  {
    FilterMapMembers(Entry, lines, Entry(lines[i]).value);
  }

  /** The table builder: a `filter_map` over the localization lines,
      collected in order. */
  method BuildTable(lines: seq<seq<Byte>>) returns (table: seq<Template>)
    ensures table == Table(lines)
  {
    table := [];
    for i := 0 to |lines|
      invariant table == Table(lines[..i])
    {
      var entry := BuildEntry(lines[i]);
      FilterMapSnoc(Entry, lines, i);
      if entry.Some? {
        table := table + [entry.value];
      }
    }
    assert lines[..|lines|] == lines;
  }
}
