/** A whole console line: the `[time] [logger/LEVEL]: ` prefix, then the
    first payload grammar that succeeds, tried in a fixed order; a line the
    grammar cannot read at all is `Unknown`, and a payload grammar that
    succeeds without reaching the end of the line makes the whole parse an
    error. */
module Line {
  import opened Bytes
  import opened LinePrefix
  import opened Grammars
  import opened DeathTable
  import opened DeathMatch

  /** A parsed line (`Log`); every text is a slice of the line. */
  datatype Log =
    | Generic(time: HmsTime, logger: Logger, message: seq<Byte>)
    | Chat(time: HmsTime, secure: bool, sender: seq<Byte>, message: seq<Byte>)
    | Join(time: HmsTime, player: seq<Byte>)
    | Leave(time: HmsTime, player: seq<Byte>)
    | Advancement(time: HmsTime, player: seq<Byte>, advancement: seq<Byte>)
    | Death(time: HmsTime, victim: seq<Byte>, attacker: seq<Byte>, weapon: seq<Byte>)
    | Unknown(raw: seq<Byte>)

  /** A half-open byte range of the line. */
  datatype Span = Span(start: nat, end: nat)

  /** The outcome of `parse`: a log and its span, or an error report. */
  datatype LineResult = Parsed(log: Log, span: Span) | ParseError

  /** The alternatives of the payload `choice`, in the order they are tried. */
  datatype Grammar = ChatGrammar | JoinGrammar | LeaveGrammar | AdvancementGrammar | DeathGrammar | GenericGrammar

  const PAYLOAD_ORDER: seq<Grammar> :=
    [ChatGrammar, JoinGrammar, LeaveGrammar, AdvancementGrammar, DeathGrammar, GenericGrammar]

  /** The logger the game's own events come from: `Server thread` at `INFO`. */
  predicate ServerThread(lg: Logger) {
    lg.level == Info && lg.name == SERVER_THREAD
  }

  /** Every alternative but the generic one is switched off unless the line
      comes from the server thread at `INFO`. */
  predicate Admits(lg: Logger, g: Grammar) {
    g == GenericGrammar || ServerThread(lg)
  }

  /** The death alternative: the first matching template; it consumes the
      whole payload. */
  function ParseDeath(table: seq<Template>, p: seq<Byte>): (r: Option<(Partial, nat)>)
    ensures r.Some? ==> r.value.1 == |p|
  {
    match MatchTable(table, 0, p)
    case None => None
    case Some(f) => Some((Partial.Death(f.victim, f.attacker, f.weapon), |p|))
  }

  function Attempt(table: seq<Template>, g: Grammar, p: seq<Byte>): (r: Option<(Partial, nat)>)
    ensures r.Some? ==> r.value.1 <= |p|
  {
    match g
    case ChatGrammar => ParseChat(p)
    case JoinGrammar => ParseJoin(p)
    case LeaveGrammar => ParseLeave(p)
    case AdvancementGrammar => ParseAdvancement(p)
    case DeathGrammar => ParseDeath(table, p)
    case GenericGrammar => ParseGeneric(p)
  }

  /** `choice` from alternative `i` on: the first admitted alternative that
      succeeds, with no backtracking once one has. */
  function Choice(table: seq<Template>, lg: Logger, p: seq<Byte>, i: nat): (r: Option<(Partial, nat)>)
    ensures r.Some? ==> r.value.1 <= |p|
    decreases |PAYLOAD_ORDER| - i
  {
    if i >= |PAYLOAD_ORDER| then None
    else if Admits(lg, PAYLOAD_ORDER[i]) && Attempt(table, PAYLOAD_ORDER[i], p).Some? then
      Attempt(table, PAYLOAD_ORDER[i], p)
    else Choice(table, lg, p, i + 1)
  }

  /** The log of a line whose payload grammar succeeded: never `Unknown`,
      and stamped with the line's time (and, when generic, its logger). */
  function Build(t: HmsTime, lg: Logger, partial: Partial): (r: Log)
    ensures !r.Unknown? && r.time == t
    ensures r.Generic? <==> partial.Generic?
    ensures r.Generic? ==> r.logger == lg
  {
    match partial
    case Generic(message) => Log.Generic(t, lg, message)
    case Chat(secure, sender, message) => Log.Chat(t, secure, sender, message)
    case Join(player) => Log.Join(t, player)
    case Leave(player) => Log.Leave(t, player)
    case Advancement(player, advancement) => Log.Advancement(t, player, advancement)
    case Death(victim, attacker, weapon) => Log.Death(t, victim, attacker, weapon)
  }

  /** `Log::parser().parse(line)`: the prefix and a payload grammar, or else
      the whole line as `Unknown`; the parse must reach the end of the line. */
  function ParseLine(table: seq<Template>, line: seq<Byte>): (r: LineResult)
    ensures r.Parsed? ==> r.span.start <= r.span.end == |line|
    ensures r.Parsed? && r.log.Unknown? ==> r.log.raw == line && r.span == Span(0, |line|)
  {
    match ParsePrefix(line)
    case None => Parsed(Unknown(line), Span(0, |line|))
    case Some((t, lg, k)) =>
      match Choice(table, lg, line[k..], 0)
      case None => Parsed(Unknown(line), Span(0, |line|))
      case Some((partial, n)) =>
        if k + n == |line| then Parsed(Build(t, lg, partial), Span(k, k + n)) else ParseError
  }

  // ------------------------------------------------------------ the choice

  /** `choice` reports the result of the first admitted alternative that
      succeeds. */
  lemma {:induction false} ChoiceFirst(table: seq<Template>, lg: Logger, p: seq<Byte>, i: nat, r: (Partial, nat))
    ensures Choice(table, lg, p, i) == Some(r) <==>
              exists m :: i <= m < |PAYLOAD_ORDER| && Admits(lg, PAYLOAD_ORDER[m])
                          && Attempt(table, PAYLOAD_ORDER[m], p) == Some(r)
                          && forall l :: i <= l < m ==> !(Admits(lg, PAYLOAD_ORDER[l]) && Attempt(table, PAYLOAD_ORDER[l], p).Some?)
    decreases |PAYLOAD_ORDER| - i
  {
    if i < |PAYLOAD_ORDER| {
      ChoiceFirst(table, lg, p, i + 1, r);
      var g := PAYLOAD_ORDER[i];
      if !(Admits(lg, g) && Attempt(table, g, p).Some?) && Choice(table, lg, p, i) == Some(r) {
        var m :| i + 1 <= m < |PAYLOAD_ORDER| && Admits(lg, PAYLOAD_ORDER[m])
                 && Attempt(table, PAYLOAD_ORDER[m], p) == Some(r)
                 && forall l :: i + 1 <= l < m ==> !(Admits(lg, PAYLOAD_ORDER[l]) && Attempt(table, PAYLOAD_ORDER[l], p).Some?);
        assert forall l :: i <= l < m ==> !(Admits(lg, PAYLOAD_ORDER[l]) && Attempt(table, PAYLOAD_ORDER[l], p).Some?);
      }
    }
  }

  /** Lines from any other logger are read only by the generic grammar. */
  lemma {:induction false} ChoiceUnguarded(table: seq<Template>, lg: Logger, p: seq<Byte>, i: nat)
    requires !ServerThread(lg) && i < |PAYLOAD_ORDER|
    ensures Choice(table, lg, p, i) == ParseGeneric(p)
    decreases |PAYLOAD_ORDER| - i
  {
    if i + 1 < |PAYLOAD_ORDER| {
      ChoiceUnguarded(table, lg, p, i + 1);
    }
  }

  // ------------------------------------------------------------ whole lines

  /** A line is `Unknown` with the span of the whole line exactly when its
      prefix or every admitted payload grammar fails. */
  lemma UnknownLine(table: seq<Template>, line: seq<Byte>)
    ensures ParseLine(table, line) == Parsed(Unknown(line), Span(0, |line|))
        <==> ParsePrefix(line).None?
             || Choice(table, ParsePrefix(line).value.1, line[ParsePrefix(line).value.2..], 0).None?
  {
  }

  /** A line that parses to an event starts with the prefix text of its time
      and logger, and the span is exactly the payload, up to the end of the
      line. */
  lemma ParsedLine(table: seq<Template>, line: seq<Byte>, log: Log, span: Span)
    requires ParseLine(table, line) == Parsed(log, span) && !log.Unknown?
    ensures ParsePrefix(line).Some?
    ensures var (t, lg, k) := ParsePrefix(line).value;
            log.time == t && span == Span(k, |line|)
            && TwoDigit(t) && k == |PrefixText(t, lg)| && StartsWith(line, PrefixText(t, lg))
  {
    var (t, lg, k) := ParsePrefix(line).value;
    PrefixParsed(line, t, lg, k);
    var (partial, n) := Choice(table, lg, line[k..], 0).value;
    assert log == Build(t, lg, partial);
  }

  /** A line from any logger but the server thread, with a non-empty
      message, is a generic log of that message. */
  lemma OtherLoggerGeneric(table: seq<Template>, t: HmsTime, lg: Logger, message: seq<Byte>)
    requires TwoDigit(t) && SLASH !in lg.name && !ServerThread(lg) && |message| >= 1
    ensures var line := PrefixText(t, lg) + message;
            ParseLine(table, line) == Parsed(Log.Generic(t, lg, message), Span(|PrefixText(t, lg)|, |line|))
  {
    PrefixThen(t, lg, message);
    ChoiceUnguarded(table, lg, message, 0);
    LineFromParts(table, PrefixText(t, lg) + message, t, lg, |PrefixText(t, lg)|, Partial.Generic(message), |message|);
  }

  /** The prefix text of a two-digit time and a logger without `/` is read
      back as that time and logger, whatever payload follows. */
  lemma PrefixThen(t: HmsTime, lg: Logger, p: seq<Byte>)
    requires TwoDigit(t) && SLASH !in lg.name
    ensures ParsePrefix(PrefixText(t, lg) + p) == Some((t, lg, |PrefixText(t, lg)|))
    ensures (PrefixText(t, lg) + p)[|PrefixText(t, lg)|..] == p
  {
    PrefixAccepted(PrefixText(t, lg) + p, t, lg);
  }

  /** A line whose prefix and payload grammar succeed and reach its end is
      the log they build, with the payload as its span. */
  lemma LineFromParts(table: seq<Template>, line: seq<Byte>, t: HmsTime, lg: Logger, k: nat, partial: Partial, n: nat)
    requires ParsePrefix(line) == Some((t, lg, k))
    requires Choice(table, lg, line[k..], 0) == Some((partial, n))
    requires k + n == |line|
    ensures ParseLine(table, line) == Parsed(Build(t, lg, partial), Span(k, |line|))
  {
  }

  /** A payload that starts with a player name and a literal such as
      ` joined the game` is not chat: chat needs a space, or `[Not Secure]`
      and a space, in front. */
  lemma NotChat(player: seq<Byte>, literal: seq<Byte>, rest: seq<Byte>)
    requires PlayerName(player) && |literal| >= 2 && literal[0] == SPACE && literal[1] != NOT_SECURE[5]
    ensures ParseChat(player + literal + rest).None?
  {
    var p := player + literal + rest;
    var m := |player|;
    var idx := if m < 4 then m else if m > 4 then 4 else 5;
    assert idx < |p| && p[idx] != NOT_SECURE[idx] by {
      if m < 4 {
        assert p[m] == literal[0];
      } else if m > 4 {
        assert p[4] == player[4];
      } else {
        assert p[5] == literal[1];
      }
    }
    assert !StartsWith(p, NOT_SECURE) by {
      assert idx < |NOT_SECURE|;
    }
    assert p[0] == player[0];
  }

  /** The server thread's name holds no `/`. */
  lemma ServerThreadName(lg: Logger)
    requires ServerThread(lg)
    ensures SLASH !in lg.name
  {
  }

  /** From the server thread, `<player> joined the game` and anything after
      it is taken by the join grammar, up to the end of the literal. */
  lemma JoinPayload(table: seq<Template>, lg: Logger, player: seq<Byte>, extra: seq<Byte>, p: seq<Byte>)
    requires ServerThread(lg) && PlayerName(player) && p == player + JOINED + extra
    ensures Choice(table, lg, p, 0) == Some((Partial.Join(player), |player| + |JOINED|))
  {
    JoinAccepted(player, extra, p);
  }

  /** `<player> joined the game` from the server thread is a join of that
      player; the span is the payload. */
  lemma JoinLine(table: seq<Template>, t: HmsTime, lg: Logger, player: seq<Byte>)
    requires TwoDigit(t) && ServerThread(lg) && PlayerName(player)
    ensures var line := PrefixText(t, lg) + (player + JOINED);
            ParseLine(table, line) == Parsed(Log.Join(t, player), Span(|PrefixText(t, lg)|, |line|))
  {
    assert Build(t, lg, Partial.Join(player)) == Log.Join(t, player);
    JoinPayload(table, lg, player, [], player + JOINED);
    ServerPrefixThen(t, lg, player + JOINED);
  }

  /** The server thread's prefix text is read back whatever payload follows. */
  lemma ServerPrefixThen(t: HmsTime, lg: Logger, p: seq<Byte>)
    requires TwoDigit(t) && ServerThread(lg)
    ensures ParsePrefix(PrefixText(t, lg) + p) == Some((t, lg, |PrefixText(t, lg)|))
    ensures (PrefixText(t, lg) + p)[|PrefixText(t, lg)|..] == p
  {
    ServerThreadName(lg);
    PrefixThen(t, lg, p);
  }

  /** A player name followed by ` joined the game` and anything is rejected
      by chat and taken by join, up to the end of the literal. */
  lemma JoinAccepted(player: seq<Byte>, extra: seq<Byte>, p: seq<Byte>)
    requires PlayerName(player) && p == player + JOINED + extra
    ensures ParseChat(p).None?
    ensures ParseJoin(p) == Some((Partial.Join(player), |player| + |JOINED|))
  {
    NotChat(player, JOINED, extra);
    assert p[..|player| + |JOINED|] == player + JOINED;
    PlayerThenShape(p, JOINED, player, |player| + |JOINED|);
  }

  /** Once the join grammar has taken `<player> joined the game`, nothing
      else is tried: bytes after it make the whole parse an error. */
  lemma JoinTrailingError(table: seq<Template>, t: HmsTime, lg: Logger, player: seq<Byte>, extra: seq<Byte>)
    requires TwoDigit(t) && ServerThread(lg) && PlayerName(player) && |extra| >= 1
    ensures ParseLine(table, PrefixText(t, lg) + (player + JOINED + extra)) == ParseError
  {
    JoinPayload(table, lg, player, extra, player + JOINED + extra);
    ServerPrefixThen(t, lg, player + JOINED + extra);
  }

  /** A payload grammar that succeeds short of the end of the line makes the
      parse an error. */
  lemma LineError(table: seq<Template>, line: seq<Byte>, t: HmsTime, lg: Logger, k: nat, partial: Partial, n: nat)
    requires ParsePrefix(line) == Some((t, lg, k))
    requires Choice(table, lg, line[k..], 0) == Some((partial, n))
    requires k + n != |line|
    ensures ParseLine(table, line) == ParseError
  {
  }

  /** A death log names the fields of a table row that the payload starts
      with once the row's slots are filled in. */
  lemma DeathLine(table: seq<Template>, line: seq<Byte>, log: Log, span: Span)
    requires forall i :: 0 <= i < |table| ==> WellFormed(table[i])
    requires ParseLine(table, line) == Parsed(log, span) && log.Death?
    ensures span.start <= span.end == |line|
    ensures exists m :: 0 <= m < |table|
              && MatchTemplate(table[m], line[span.start..]) == Some(Fields(log.victim, log.attacker, log.weapon))
              && StartsWith(line[span.start..], Fill(table[m], Fields(log.victim, log.attacker, log.weapon)))
  {
    var (t, lg, k) := ParsePrefix(line).value;
    var (partial, n) := Choice(table, lg, line[k..], 0).value;
    BuildDeath(t, lg, partial);
    ChoiceDeath(table, lg, line[k..], 0, Fields(log.victim, log.attacker, log.weapon), n);
    MatchTableFills(table, line[k..], Fields(log.victim, log.attacker, log.weapon));
  }

  lemma BuildDeath(t: HmsTime, lg: Logger, partial: Partial)
    requires Build(t, lg, partial).Death?
    ensures var log := Build(t, lg, partial);
            partial == Partial.Death(log.victim, log.attacker, log.weapon)
  {
  }

  /** Only the death alternative produces a death. */
  lemma AttemptDeath(table: seq<Template>, g: Grammar, p: seq<Byte>, r: (Partial, nat))
    requires Attempt(table, g, p) == Some(r) && r.0.Death?
    ensures g == DeathGrammar
  {
  }

  lemma {:induction false} ChoiceDeath(table: seq<Template>, lg: Logger, p: seq<Byte>, i: nat, f: Fields, n: nat)
    requires Choice(table, lg, p, i) == Some((Partial.Death(f.victim, f.attacker, f.weapon), n))
    ensures MatchTable(table, 0, p) == Some(f) && n == |p|
    decreases |PAYLOAD_ORDER| - i
  {
    var g := PAYLOAD_ORDER[i];
    if Admits(lg, g) && Attempt(table, g, p).Some? {
      AttemptDeath(table, g, p, (Partial.Death(f.victim, f.attacker, f.weapon), n));
    } else {
      ChoiceDeath(table, lg, p, i + 1, f, n);
    }
  }
}
