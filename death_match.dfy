/** The death alternative of the payload grammar: the templates of the death
    table are tried in order; a template matches when its literal prefix
    starts the payload and each of its three (slot, literal) steps succeeds.
    A slot followed by a literal captures the shortest non-empty text that
    the literal follows; a slot followed by nothing captures the rest. */
module DeathMatch {
  import opened Bytes
  import opened DeathTable

  /** The victim, attacker and weapon texts a death message names; a slot the
      template does not have stays empty. */
  datatype Fields = Fields(victim: seq<Byte>, attacker: seq<Byte>, weapon: seq<Byte>)

  const NO_FIELDS := Fields([], [], [])

  /** One step of a template: a slot and the literal that follows it. */
  datatype Component = Component(kind: Kind, literal: seq<Byte>)

  function Components(t: Template): (cs: seq<Component>)
    ensures |cs| == 3
  {
    [Component(t.kind1, t.infix1), Component(t.kind2, t.infix2), Component(t.kind3, t.suffix)]
  }

  /** The field a kind fills; nothing for `Empty`. */
  function Field(f: Fields, k: Kind): seq<Byte> {
    match k
    case Victim => f.victim
    case Attacker => f.attacker
    case Weapon => f.weapon
    case Empty => []
  }

  /** Records a captured text in the field of its kind. */
  function Record(f: Fields, k: Kind, c: seq<Byte>): (g: Fields)
    ensures k != Empty ==> Field(g, k) == c
    ensures forall j :: j != k ==> Field(g, j) == Field(f, j)
  {
    match k
    case Victim => f.(victim := c)
    case Attacker => f.(attacker := c)
    case Weapon => f.(weapon := c)
    case Empty => f
  }

  // ------------------------------------------------------------ as written

  /** One step as written: a slot followed by a literal starts its capture
      at length 1, so an empty remainder underflows `slice.len() - 1` (and
      slicing `slice[1..]` panics even where the subtraction wraps). */
  function StepAsWritten(c: Component, slice: seq<Byte>, f: Fields): (r: Checked<(seq<Byte>, Fields)>)
    ensures r.Panicked? <==> c.kind != Empty && c.literal != [] && slice == []
  {
    if c.kind == Empty && c.literal == [] then Done((slice, f))
    else if c.kind == Empty then
      if StartsWith(slice, c.literal) then Done((slice[|c.literal|..], f)) else Failed
    else if c.literal == [] then Done(([], Record(f, c.kind, slice)))
    else if slice == [] then Panicked
    else
      match FindFrom(slice, c.literal, 1)
      case None => Failed
      case Some(n) => Done((slice[n + |c.literal|..], Record(f, c.kind, slice[..n])))
  }

  /** The steps from `j` on, as written: only a capturing slot with a
      literal after it can panic, and with no literals left nothing fails. */
  function StepsAsWritten(cs: seq<Component>, j: nat, slice: seq<Byte>, f: Fields): (r: Checked<Fields>)
    ensures r.Panicked? ==> exists i :: j <= i < |cs| && cs[i].kind != Empty && cs[i].literal != []
    ensures (forall i :: j <= i < |cs| ==> cs[i].literal == []) ==> r.Done?
    decreases |cs| - j
  {
    if j >= |cs| then Done(f)
    else
      match StepAsWritten(cs[j], slice, f)
      case Done((rest, g)) => StepsAsWritten(cs, j + 1, rest, g)
      case Failed => Failed
      case Panicked => Panicked
  }

  /** A template against a payload, as written; whatever follows the last
      step is drained. */
  function MatchTemplateAsWritten(t: Template, p: seq<Byte>): (r: Checked<Fields>)
    ensures r.Panicked? ==> StartsWith(p, t.prefix)
    ensures r.Panicked? ==> exists i :: 0 <= i < 3 && Components(t)[i].kind != Empty && Components(t)[i].literal != []
  {
    if !StartsWith(p, t.prefix) then Failed
    else StepsAsWritten(Components(t), 0, p[|t.prefix|..], NO_FIELDS)
  }

  /** The table against a payload, as written: the first template that
      matches wins, and a panic ends the search (and the program). */
  function MatchTableAsWritten(table: seq<Template>, i: nat, p: seq<Byte>): (r: Checked<Fields>)
    ensures !r.Failed? ==> exists k :: i <= k < |table| && MatchTemplateAsWritten(table[k], p) == r
    decreases |table| - i
  {
    if i >= |table| then Failed
    else
      match MatchTemplateAsWritten(table[i], p)
      case Done(f) => Done(f)
      case Panicked => Panicked
      case Failed => MatchTableAsWritten(table, i + 1, p)
  }

  // ------------------------------------------------------------ corrected

  /** One step: an `Empty` slot only checks its literal; a slot with no
      literal after it captures the rest; a slot followed by a literal
      captures up to the first occurrence of the literal at index 1 or
      later, so an empty remainder does not match. */
  function Step(c: Component, slice: seq<Byte>, f: Fields): (r: Option<(seq<Byte>, Fields)>)
    ensures r.Some? ==> |r.value.0| <= |slice|
    ensures c.kind == Empty && r.Some? ==> r.value.1 == f
    ensures c.literal == [] ==> r.Some?
  {
    if c.kind == Empty && c.literal == [] then Some((slice, f))
    else if c.kind == Empty then
      if StartsWith(slice, c.literal) then Some((slice[|c.literal|..], f)) else None
    else if c.literal == [] then Some(([], Record(f, c.kind, slice)))
    else
      match FindFrom(slice, c.literal, 1)
      case None => None
      case Some(n) => Some((slice[n + |c.literal|..], Record(f, c.kind, slice[..n])))
  }

  /** The steps from `j` on; with no literals left they cannot fail. */
  function Steps(cs: seq<Component>, j: nat, slice: seq<Byte>, f: Fields): (r: Option<Fields>)
    ensures (forall i :: j <= i < |cs| ==> cs[i].literal == []) ==> r.Some?
    decreases |cs| - j
  {
    if j >= |cs| then Some(f)
    else
      match Step(cs[j], slice, f)
      case Some((rest, g)) => Steps(cs, j + 1, rest, g)
      case None => None
  }

  /** A template matches only a payload its prefix starts, and a template
      with no literal after its prefix matches every such payload. */
  function MatchTemplate(t: Template, p: seq<Byte>): (r: Option<Fields>)
    ensures r.Some? ==> StartsWith(p, t.prefix)
    ensures StartsWith(p, t.prefix) && t.infix1 == [] && t.infix2 == [] && t.suffix == [] ==> r.Some?
  {
    if !StartsWith(p, t.prefix) then None
    else Steps(Components(t), 0, p[|t.prefix|..], NO_FIELDS)
  }

  /** The fields of the first template of `table[i..]` that matches. */
  function MatchTable(table: seq<Template>, i: nat, p: seq<Byte>): (r: Option<Fields>)
    ensures r.Some? ==> exists k :: i <= k < |table| && MatchTemplate(table[k], p) == r
    decreases |table| - i
  {
    if i >= |table| then None
    else
      match MatchTemplate(table[i], p)
      case Some(f) => Some(f)
      case None => MatchTable(table, i + 1, p)
  }

  // ------------------------------------------------------------ the correction

  /** The corrected step differs from the step as written only where the
      latter panics, and there it does not match. */
  lemma StepRecovers(c: Component, slice: seq<Byte>, f: Fields)
    ensures Recover(StepAsWritten(c, slice, f)) == Step(c, slice, f)
  {
  }

  lemma {:induction false} StepsRecover(cs: seq<Component>, j: nat, slice: seq<Byte>, f: Fields)
    ensures Recover(StepsAsWritten(cs, j, slice, f)) == Steps(cs, j, slice, f)
    decreases |cs| - j
  {
    if j < |cs| {
      StepRecovers(cs[j], slice, f);
      var w := StepAsWritten(cs[j], slice, f);
      if w.Done? {
        StepsRecover(cs, j + 1, w.value.0, w.value.1);
      }
    }
  }

  /** A template that panics as written is one that does not match, and
      otherwise both agree. */
  lemma MatchTemplateRecovers(t: Template, p: seq<Byte>)
    ensures Recover(MatchTemplateAsWritten(t, p)) == MatchTemplate(t, p)
  {
    if StartsWith(p, t.prefix) {
      StepsRecover(Components(t), 0, p[|t.prefix|..], NO_FIELDS);
    }
  }

  /** Where the table search as written does not panic, the corrected search
      finds the same fields. */
  lemma {:induction false} MatchTableAgrees(table: seq<Template>, i: nat, p: seq<Byte>)
    requires !MatchTableAsWritten(table, i, p).Panicked?
    ensures Recover(MatchTableAsWritten(table, i, p)) == MatchTable(table, i, p)
    decreases |table| - i
  {
    if i < |table| {
      MatchTemplateRecovers(table[i], p);
      if MatchTemplateAsWritten(table[i], p).Failed? {
        MatchTableAgrees(table, i + 1, p);
      }
    }
  }

  /** `%1$s died`, a template with a victim slot followed by a literal. */
  const DIED: Template := Template([], Victim, [32, 100, 105, 101, 100], Empty, [], Empty, [])

  /** An empty payload against a table whose first row is `%1$s died`: the
      search as written panics, the corrected one reports no match. */
  lemma EmptyPayloadPanics()
    ensures WellFormed(DIED) && Render(DIED) == [37, 49, 36, 115, 32, 100, 105, 101, 100]
    ensures MatchTableAsWritten([DIED], 0, []) == Panicked
    ensures MatchTable([DIED], 0, []) == None
  {
  }

  // ------------------------------------------------------------ what a match means

  /** The text a template describes once its slots are filled in with the
      captured fields. */
  function Fill(t: Template, f: Fields): seq<Byte> {
    t.prefix + Field(f, t.kind1) + t.infix1 + Field(f, t.kind2) + t.infix2 + Field(f, t.kind3) + t.suffix
  }

  function FillFrom(cs: seq<Component>, j: nat, f: Fields): seq<Byte>
    decreases |cs| - j
  {
    if j >= |cs| then [] else Field(f, cs[j].kind) + cs[j].literal + FillFrom(cs, j + 1, f)
  }

  /** No kind other than `Empty` occurs twice in `cs[j..]`. */
  predicate DistinctFrom(cs: seq<Component>, j: nat) {
    forall a, b :: j <= a < b < |cs| && cs[a].kind != Empty ==> cs[a].kind != cs[b].kind
  }

  predicate Absent(cs: seq<Component>, j: nat, k: Kind) {
    forall a :: j <= a < |cs| ==> cs[a].kind != k
  }

  /** A step that succeeds splits its input into the capture, the literal and
      what is left; it changes only the field of its kind; and a capture
      followed by a literal is the shortest non-empty one the literal
      follows. */
  lemma StepShape(c: Component, slice: seq<Byte>, f: Fields, rest: seq<Byte>, g: Fields)
    requires Step(c, slice, f) == Some((rest, g))
    ensures slice == Field(g, c.kind) + c.literal + rest
    ensures forall k :: k != c.kind ==> Field(g, k) == Field(f, k)
    ensures c.kind != Empty && c.literal != [] ==>
              |Field(g, c.kind)| >= 1
              && forall i :: 1 <= i < |Field(g, c.kind)| ==> !OccursAt(slice, c.literal, i)
    ensures c.kind != Empty && c.literal == [] ==> rest == [] && Field(g, c.kind) == slice
    ensures Takes(c, slice, Field(g, c.kind), rest)
  {
    if c.kind == Empty && c.literal != [] {
      assert slice == slice[..|c.literal|] + slice[|c.literal|..];
    } else if c.kind != Empty && c.literal != [] {
      var n := FindFrom(slice, c.literal, 1).value;
      assert slice == slice[..n] + slice[n..n + |c.literal|] + slice[n + |c.literal|..];
    }
  }

  /** How a step reads `slice`: its capture, its literal, then what is
      left. An `Empty` slot captures nothing; a slot with no literal after it
      captures everything; a slot followed by a literal captures the
      shortest non-empty text that the literal follows. */
  predicate Takes(c: Component, slice: seq<Byte>, capture: seq<Byte>, rest: seq<Byte>) {
    slice == capture + c.literal + rest
    && (c.kind == Empty ==> capture == [])
    && (c.kind != Empty && c.literal == [] ==> rest == [])
    && (c.kind != Empty && c.literal != [] ==>
          |capture| >= 1 && forall i :: 1 <= i < |capture| ==> !OccursAt(slice, c.literal, i))
  }

  /** A step succeeds on every reading `Takes` describes, with that capture
      recorded in the field of its kind. */
  lemma StepAccepted(c: Component, slice: seq<Byte>, f: Fields, capture: seq<Byte>, rest: seq<Byte>)
    requires Takes(c, slice, capture, rest)
    ensures Step(c, slice, f) == Some((rest, Record(f, c.kind, capture)))
  {
    if c.kind != Empty && c.literal != [] {
      var n := |capture|;
      assert slice[..n] == capture && slice[n..n + |c.literal|] == c.literal && slice[n + |c.literal|..] == rest;
      FindFromIs(slice, c.literal, 1, n);
    } else if c.kind == Empty {
      assert capture == [] && Record(f, c.kind, capture) == f;
      assert slice == c.literal + rest;
      assert slice[..|c.literal|] == c.literal && slice[|c.literal|..] == rest;
    } else {
      assert slice == capture && rest == [];
    }
  }

  lemma FindFromIs(s: seq<Byte>, p: seq<Byte>, k: nat, n: nat)
    requires k <= n && OccursAt(s, p, n)
    requires forall i :: k <= i < n ==> !OccursAt(s, p, i)
    ensures FindFrom(s, p, k) == Some(n)
  {
  }

  /** When a step fails: never without a literal; an `Empty` slot when the
      literal does not start the input; a capturing slot when the literal
      occurs nowhere from index 1 on. */
  lemma StepFails(c: Component, slice: seq<Byte>, f: Fields)
    ensures c.literal == [] ==> Step(c, slice, f).Some?
    ensures c.kind == Empty && c.literal != [] ==> (Step(c, slice, f).None? <==> !StartsWith(slice, c.literal))
    ensures c.kind != Empty && c.literal != [] ==>
              (Step(c, slice, f).None? <==> forall i :: 1 <= i ==> !OccursAt(slice, c.literal, i))
  {
  }

  lemma {:induction false} StepsFill(cs: seq<Component>, j: nat, slice: seq<Byte>, f: Fields, g: Fields)
    requires DistinctFrom(cs, j)
    requires Steps(cs, j, slice, f) == Some(g)
    ensures StartsWith(slice, FillFrom(cs, j, g))
    ensures forall k :: Absent(cs, j, k) ==> Field(g, k) == Field(f, k)
    decreases |cs| - j
  {
    if j < |cs| {
      var rest := Step(cs[j], slice, f).value.0;
      var h := Step(cs[j], slice, f).value.1;
      StepShape(cs[j], slice, f, rest, h);
      StepsFill(cs, j + 1, rest, h, g);
      SameField(cs, j, h, g);
      StartsWithExtend(Field(g, cs[j].kind) + cs[j].literal, rest, FillFrom(cs, j + 1, g));
      forall k | Absent(cs, j, k) ensures Field(g, k) == Field(f, k) {
        assert Absent(cs, j + 1, k);
      }
    }
  }

  /** The later steps leave the field of step `j` alone. */
  lemma SameField(cs: seq<Component>, j: nat, h: Fields, g: Fields)
    requires j < |cs| && DistinctFrom(cs, j)
    requires forall k :: Absent(cs, j + 1, k) ==> Field(g, k) == Field(h, k)
    ensures Field(g, cs[j].kind) == Field(h, cs[j].kind)
  {
    if cs[j].kind != Empty {
      assert Absent(cs, j + 1, cs[j].kind);
    }
  }

  /** A well-formed template that matches a payload describes a prefix of
      it once its slots are filled with the captured fields (the rest is
      drained), and the fields of kinds it lacks stay empty. */
  lemma MatchFills(t: Template, p: seq<Byte>, f: Fields)
    requires WellFormed(t)
    requires MatchTemplate(t, p) == Some(f)
    ensures StartsWith(p, Fill(t, f))
    ensures forall k :: k != t.kind1 && k != t.kind2 && k != t.kind3 ==> Field(f, k) == []
  {
    var cs := Components(t);
    var slice := p[|t.prefix|..];
    assert p == t.prefix + slice;
    WellFormedDistinct(t);
    StepsFill(cs, 0, slice, NO_FIELDS, f);
    PrefixFill(t, p, slice, f);
    LackedEmpty(t, f);
  }

  lemma PrefixFill(t: Template, p: seq<Byte>, slice: seq<Byte>, f: Fields)
    requires p == t.prefix + slice && StartsWith(slice, FillFrom(Components(t), 0, f))
    ensures StartsWith(p, Fill(t, f))
  {
    StartsWithExtend(t.prefix, slice, FillFrom(Components(t), 0, f));
    FillComponents(t, f);
  }

  lemma LackedEmpty(t: Template, f: Fields)
    requires forall k :: Absent(Components(t), 0, k) ==> Field(f, k) == Field(NO_FIELDS, k)
    ensures forall k :: k != t.kind1 && k != t.kind2 && k != t.kind3 ==> Field(f, k) == []
  {
    forall k | k != t.kind1 && k != t.kind2 && k != t.kind3 ensures Field(f, k) == [] {
      assert Absent(Components(t), 0, k);
    }
  }

  /** `p` read by template `t` with the captures of `f`: the prefix, then
      each step taking its field's text and leaving `r1`, `r2` and `r3`; the
      fields of kinds the template lacks are empty. */
  predicate Reads(t: Template, p: seq<Byte>, f: Fields, r1: seq<Byte>, r2: seq<Byte>, r3: seq<Byte>) {
    StartsWith(p, t.prefix)
    && Takes(Component(t.kind1, t.infix1), p[|t.prefix|..], Field(f, t.kind1), r1)
    && Takes(Component(t.kind2, t.infix2), r1, Field(f, t.kind2), r2)
    && Takes(Component(t.kind3, t.suffix), r2, Field(f, t.kind3), r3)
    && forall k :: k != t.kind1 && k != t.kind2 && k != t.kind3 ==> Field(f, k) == []
  }

  /** A well-formed template matches every payload it reads, with exactly
      the fields of that reading. */
  lemma TemplateAccepted(t: Template, p: seq<Byte>, f: Fields, r1: seq<Byte>, r2: seq<Byte>, r3: seq<Byte>)
    requires WellFormed(t) && Reads(t, p, f, r1, r2, r3)
    ensures MatchTemplate(t, p) == Some(f)
  {
    var cs := Components(t);
    var slice := p[|t.prefix|..];
    var f1 := Record(NO_FIELDS, t.kind1, Field(f, t.kind1));
    var f2 := Record(f1, t.kind2, Field(f, t.kind2));
    var f3 := Record(f2, t.kind3, Field(f, t.kind3));
    StepAccepted(cs[0], slice, NO_FIELDS, Field(f, t.kind1), r1);
    StepAccepted(cs[1], r1, f1, Field(f, t.kind2), r2);
    StepAccepted(cs[2], r2, f2, Field(f, t.kind3), r3);
    assert Steps(cs, 2, r2, f2) == Some(f3);
    assert Steps(cs, 0, slice, NO_FIELDS) == Some(f3);
    RecordsGive(t, f);
  }

  /** Recording a well-formed template's fields one by one into nothing
      gives back those fields. */
  lemma RecordsGive(t: Template, f: Fields)
    requires WellFormed(t)
    requires forall k :: k != t.kind1 && k != t.kind2 && k != t.kind3 ==> Field(f, k) == []
    ensures Record(Record(Record(NO_FIELDS, t.kind1, Field(f, t.kind1)), t.kind2, Field(f, t.kind2)),
                   t.kind3, Field(f, t.kind3)) == f
  {
    var g := Record(Record(Record(NO_FIELDS, t.kind1, Field(f, t.kind1)), t.kind2, Field(f, t.kind2)),
                    t.kind3, Field(f, t.kind3));
    FieldsExt(g, f);
  }

  lemma FieldsExt(g: Fields, f: Fields)
    requires Field(g, Victim) == Field(f, Victim) && Field(g, Attacker) == Field(f, Attacker)
    requires Field(g, Weapon) == Field(f, Weapon)
    ensures g == f
  {
  }

  /** Every match of a well-formed template is a reading of the payload. */
  lemma TemplateParsed(t: Template, p: seq<Byte>, f: Fields)
    requires WellFormed(t) && MatchTemplate(t, p) == Some(f)
    ensures exists r1, r2, r3 :: Reads(t, p, f, r1, r2, r3)
  {
    var cs := Components(t);
    var slice := p[|t.prefix|..];
    var r1, g1 := StepsNext(cs, 0, slice, NO_FIELDS, f);
    var r2, g2 := StepsNext(cs, 1, r1, g1, f);
    var r3, g3 := StepsNext(cs, 2, r2, g2, f);
    assert g3 == f;
    StepShape(cs[0], slice, NO_FIELDS, r1, g1);
    StepShape(cs[1], r1, g1, r2, g2);
    StepShape(cs[2], r2, g2, r3, g3);
    assert Field(f, t.kind1) == Field(g1, t.kind1);
    assert Field(f, t.kind2) == Field(g2, t.kind2);
    assert Reads(t, p, f, r1, r2, r3);
  }

  /** A successful run of the steps from `j` is step `j` followed by a
      successful run from `j + 1`. */
  lemma StepsNext(cs: seq<Component>, j: nat, slice: seq<Byte>, f: Fields, g: Fields) returns (rest: seq<Byte>, h: Fields)
    requires j < |cs| && Steps(cs, j, slice, f) == Some(g)
    ensures Step(cs[j], slice, f) == Some((rest, h)) && Steps(cs, j + 1, rest, h) == Some(g)
  {
    rest, h := Step(cs[j], slice, f).value.0, Step(cs[j], slice, f).value.1;
  }

  /** `%1$s was slain by %2$s using %3$s`. */
  const SLAIN: Template := Template([], Victim, [32, 119, 97, 115, 32, 115, 108, 97, 105, 110, 32, 98, 121, 32],
                                    Attacker, [32, 117, 115, 105, 110, 103, 32], Weapon, [])
  const BOB: seq<Byte> := [66, 111, 98]
  const ZOMBIE: seq<Byte> := [90, 111, 109, 98, 105, 101]
  const SWORD: seq<Byte> := [83, 119, 111, 114, 100]

  /** `Bob was slain by Zombie using Sword` names Bob, Zombie and Sword. */
  lemma SlainBy()
    ensures WellFormed(SLAIN)
    ensures MatchTemplate(SLAIN, BOB + SLAIN.infix1 + ZOMBIE + SLAIN.infix2 + SWORD) == Some(Fields(BOB, ZOMBIE, SWORD))
  {
    var l1, l2 := SLAIN.infix1, SLAIN.infix2;
    var r1 := ZOMBIE + l2 + SWORD;
    var p := BOB + l1 + r1;
    assert BOB + l1 + ZOMBIE + l2 + SWORD == p;
    assert p[0..] == p;
    forall i | 1 <= i < |BOB| ensures !OccursAt(p, l1, i) {
      assert p[i] == BOB[i];
      NotAt(p, l1, i);
    }
    forall i | 1 <= i < |ZOMBIE| ensures !OccursAt(r1, l2, i) {
      assert r1[i] == ZOMBIE[i];
      NotAt(r1, l2, i);
    }
    assert SWORD == SWORD + [] + [];
    TemplateAccepted(SLAIN, p, Fields(BOB, ZOMBIE, SWORD), r1, SWORD, []);
  }

  lemma NotAt(s: seq<Byte>, lit: seq<Byte>, i: nat)
    requires i < |s| && |lit| >= 1 && s[i] != lit[0]
    ensures !OccursAt(s, lit, i)
  {
    if i + |lit| <= |s| {
      assert s[i..i + |lit|][0] == s[i];
    }
  }

  /** A table of well-formed rows that matches a payload matches it with a
      row whose filled-in text the payload starts with. */
  lemma MatchTableFills(table: seq<Template>, p: seq<Byte>, f: Fields)
    requires forall i :: 0 <= i < |table| ==> WellFormed(table[i])
    requires MatchTable(table, 0, p) == Some(f)
    ensures exists m :: 0 <= m < |table| && MatchTemplate(table[m], p) == Some(f) && StartsWith(p, Fill(table[m], f))
  {
    MatchTableFirst(table, 0, p, f);
    var m :| 0 <= m < |table| && MatchTemplate(table[m], p) == Some(f)
             && forall l :: 0 <= l < m ==> MatchTemplate(table[l], p).None?;
    MatchFills(table[m], p, f);
  }

  lemma WellFormedDistinct(t: Template)
    requires WellFormed(t)
    ensures DistinctFrom(Components(t), 0)
  {
  }

  lemma FillComponents(t: Template, f: Fields)
    ensures Fill(t, f) == t.prefix + FillFrom(Components(t), 0, f)
  {
    var cs := Components(t);
    assert FillFrom(cs, 3, f) == [];
    assert FillFrom(cs, 2, f) == Field(f, t.kind3) + t.suffix;
    assert FillFrom(cs, 1, f) == Field(f, t.kind2) + t.infix2 + (Field(f, t.kind3) + t.suffix);
  }

  /** The table search reports the fields of the first template that
      matches, and nothing when none does. */
  lemma {:induction false} MatchTableFirst(table: seq<Template>, i: nat, p: seq<Byte>, f: Fields)
    ensures MatchTable(table, i, p) == Some(f) <==>
              exists m :: i <= m < |table| && MatchTemplate(table[m], p) == Some(f)
                          && forall l :: i <= l < m ==> MatchTemplate(table[l], p).None?
    decreases |table| - i
  {
    if i < |table| {
      MatchTableFirst(table, i + 1, p, f);
      if MatchTemplate(table[i], p).None? && MatchTable(table, i, p) == Some(f) {
        var m :| i + 1 <= m < |table| && MatchTemplate(table[m], p) == Some(f)
                && forall l :: i + 1 <= l < m ==> MatchTemplate(table[l], p).None?;
        assert forall l :: i <= l < m ==> MatchTemplate(table[l], p).None?;
      }
      if exists m :: i <= m < |table| && MatchTemplate(table[m], p) == Some(f)
                     && forall l :: i <= l < m ==> MatchTemplate(table[l], p).None? {
        var m :| i <= m < |table| && MatchTemplate(table[m], p) == Some(f)
                 && forall l :: i <= l < m ==> MatchTemplate(table[l], p).None?;
        if m > i {
          assert MatchTemplate(table[i], p).None?;
        }
      }
    }
  }

  lemma {:induction false} MatchTableNone(table: seq<Template>, i: nat, p: seq<Byte>)
    ensures MatchTable(table, i, p).None? <==> forall m :: i <= m < |table| ==> MatchTemplate(table[m], p).None?
    decreases |table| - i
  {
    if i < |table| {
      MatchTableNone(table, i + 1, p);
    }
  }

  // ------------------------------------------------------------ the matcher

  /** One (slot, literal) step of the matcher: the capture length starts at
      1 and grows until the literal follows it or too little is left for the
      literal; the corrected matcher gives up on an empty remainder instead
      of underflowing. */
  method TakeComponent(c: Component, slice: seq<Byte>, f: Fields) returns (r: Option<(seq<Byte>, Fields)>)
    ensures r == Step(c, slice, f)
  {
    if c.kind == Empty && c.literal == [] {
      return Some((slice, f));
    }
    var rest := slice;
    var g := f;
    if c.kind != Empty {
      var len: nat;
      if c.literal == [] {
        len := |slice|;
      } else {
        if slice == [] {
          return None;
        }
        len := 1;
        while |slice| - len >= |c.literal| && !StartsWith(slice[len..], c.literal)
          invariant 1 <= len <= |slice|
          invariant FindFrom(slice, c.literal, len) == FindFrom(slice, c.literal, 1)
          decreases |slice| - len
        {
          StartsWithAt(slice, c.literal, len);
          len := len + 1;
        }
        StartsWithAt(slice, c.literal, len);
      }
      assert c.literal == [] ==> slice[..len] == slice && slice[len..] == [];
      g := Record(f, c.kind, slice[..len]);
      rest := slice[len..];
    }
    if c.literal != [] {
      if !StartsWith(rest, c.literal) {
        return None;
      }
      assert rest[|c.literal|..] == slice[|slice| - |rest| + |c.literal|..];
      rest := rest[|c.literal|..];
    }
    r := Some((rest, g));
  }

  /** One template against a payload: the literal prefix, then the three
      steps in order. */
  method TryTemplate(t: Template, p: seq<Byte>) returns (r: Option<Fields>)
    ensures r == MatchTemplate(t, p)
  {
    var slice := p;
    if t.prefix != [] {
      if !StartsWith(slice, t.prefix) {
        return None;
      }
      slice := slice[|t.prefix|..];
    }
    var ret := NO_FIELDS;
    var cs := Components(t);
    for j := 0 to 3
      invariant Steps(cs, j, slice, ret) == MatchTemplate(t, p)
    {
      var step := TakeComponent(cs[j], slice, ret);
      if step.None? {
        return None;
      }
      slice, ret := step.value.0, step.value.1;
    }
    r := Some(ret);
  }

  /** The death alternative: the first template of the table that matches. */
  method FindDeath(table: seq<Template>, p: seq<Byte>) returns (r: Option<Fields>)
    ensures r == MatchTable(table, 0, p)
  {
    for i := 0 to |table|
      invariant MatchTable(table, i, p) == MatchTable(table, 0, p)
    {
      var fields := TryTemplate(table[i], p);
      if fields.Some? {
        return fields;
      }
    }
    r := None;
  }
}
