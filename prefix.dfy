/** The fixed prefix of every server log line,
    `[HH:MM:SS] [<logger name>/<LEVEL>]: `, and its three parts: the
    timestamp (`HmsTime::parser` and its `Display`), the level keyword
    (`LogLevel::parser`) and the bracketed logger tag (`Logger::parser`). */
module LinePrefix {
  import opened Bytes

  /** Rust `u8`. */
  type U8 = x: int | 0 <= x < 256

  datatype HmsTime = HmsTime(hours: U8, minutes: U8, seconds: U8)

  /** The value of two ASCII digits, `(a - b'0') * 10 + b - b'0'`. */
  function DigitPair(a: Byte, b: Byte): (n: U8)
    requires IsAsciiDigit(a) && IsAsciiDigit(b)
    ensures n < 100
  {
    (a - 48) * 10 + (b - 48)
  }

  /** `HH:MM:SS`: exactly two ASCII digits per field, no range check. */
  function ParseTime(b: seq<Byte>): (r: Option<(HmsTime, nat)>)
    ensures r.Some? ==> |b| >= 8 && r.value.1 == 8 && TwoDigit(r.value.0)
  {
    if |b| >= 8
       && IsAsciiDigit(b[0]) && IsAsciiDigit(b[1]) && b[2] == COLON
       && IsAsciiDigit(b[3]) && IsAsciiDigit(b[4]) && b[5] == COLON
       && IsAsciiDigit(b[6]) && IsAsciiDigit(b[7])
    then Some((HmsTime(DigitPair(b[0], b[1]), DigitPair(b[3], b[4]), DigitPair(b[6], b[7])), 8))
    else None
  }

  /** A `u8` written with `{:02}`: at least two decimal digits, which read
      back as the value. */
  function Padded(n: U8): (r: seq<Byte>)
    ensures |r| == (if n < 100 then 2 else 3)
    ensures forall i :: 0 <= i < |r| ==> IsAsciiDigit(r[i])
    ensures n < 100 ==> DigitPair(r[0], r[1]) == n
  {
    if n < 100 then [48 + n / 10, 48 + n % 10]
    else [48 + n / 100, 48 + n / 10 % 10, 48 + n % 10]
  }

  /** `Display for HmsTime`: `{:02}:{:02}:{:02}`. */
  function FormatTime(t: HmsTime): (r: seq<Byte>)
    ensures 8 <= |r| <= 11
    ensures TwoDigit(t) ==> |r| == 8 && r[2] == COLON && r[5] == COLON
  {
    Padded(t.hours) + [COLON] + Padded(t.minutes) + [COLON] + Padded(t.seconds)
  }

  /** Every field fits in two digits, as every parsed time does. */
  predicate TwoDigit(t: HmsTime) {
    t.hours < 100 && t.minutes < 100 && t.seconds < 100
  }

  lemma PairPadded(a: Byte, b: Byte)
    requires IsAsciiDigit(a) && IsAsciiDigit(b)
    ensures Padded(DigitPair(a, b)) == [a, b]
  {
    DecimalDigits(a - 48, b - 48);
  }

  lemma DecimalDigits(q: int, d: int)
    requires 0 <= d < 10
    ensures (q * 10 + d) / 10 == q && (q * 10 + d) % 10 == d
  {
  }

  /** The time grammar accepts exactly the eight bytes that `Display` writes
      for a time whose fields have two digits, and nothing else. */
  lemma TimeGrammar(b: seq<Byte>, t: HmsTime, n: nat)
    ensures ParseTime(b) == Some((t, n)) <==> n == 8 && TwoDigit(t) && StartsWith(b, FormatTime(t))
  {
    if ParseTime(b) == Some((t, n)) {
      PairPadded(b[0], b[1]);
      PairPadded(b[3], b[4]);
      PairPadded(b[6], b[7]);
      assert FormatTime(t) == b[..8];
    }
    if n == 8 && TwoDigit(t) && StartsWith(b, FormatTime(t)) {
      var f := FormatTime(t);
      assert b[0] == f[0] && b[1] == f[1] && b[2] == f[2] && b[3] == f[3];
      assert b[4] == f[4] && b[5] == f[5] && b[6] == f[6] && b[7] == f[7];
    }
  }

  /** Parsing what `Display` writes gives the time back, whatever follows it. */
  lemma TimeRoundTrip(t: HmsTime, rest: seq<Byte>)
    requires TwoDigit(t)
    ensures |FormatTime(t)| == 8
    ensures ParseTime(FormatTime(t) + rest) == Some((t, 8))
  {
    assert StartsWith(FormatTime(t) + rest, FormatTime(t));
    TimeGrammar(FormatTime(t) + rest, t, 8);
  }

  datatype LogLevel = Trace | Debug | Info | Warn | Error | Fatal

  /** The keyword the server writes for each level. */
  function LevelName(l: LogLevel): seq<Byte> {
    match l
    case Trace => [84, 82, 65, 67, 69]  // TRACE
    case Debug => [68, 69, 66, 85, 71]  // DEBUG
    case Info => [73, 78, 70, 79]       // INFO
    case Warn => [87, 65, 82, 78]       // WARN
    case Error => [69, 82, 82, 79, 82]  // ERROR
    case Fatal => [70, 65, 84, 65, 76]  // FATAL
  }

  predicate IsIdentStart(b: Byte) { IsAsciiAlpha(b) || b == UNDERSCORE }

  predicate IsIdentContinue(b: Byte) { IsAsciiAlpha(b) || IsAsciiDigit(b) || b == UNDERSCORE }

  /** The length of the ASCII identifier at the start of `b` (0 if none). */
  function IdentLen(b: seq<Byte>): (n: nat)
    ensures n <= |b|
  {
    if |b| > 0 && IsIdentStart(b[0]) then Run(b, IsIdentContinue) else 0
  }

  /** `text::keyword` for each level in turn: the whole identifier at the start
      of `b` must be one of the six keywords. */
  function ParseLevel(b: seq<Byte>): (r: Option<(LogLevel, nat)>)
    ensures r.Some? ==> r.value.1 <= |b|
    ensures r.Some? ==> StartsWith(b, LevelName(r.value.0)) && r.value.1 == |LevelName(r.value.0)|
  {
    var word := b[..IdentLen(b)];
    if word == LevelName(Trace) then Some((Trace, |word|))
    else if word == LevelName(Debug) then Some((Debug, |word|))
    else if word == LevelName(Info) then Some((Info, |word|))
    else if word == LevelName(Warn) then Some((Warn, |word|))
    else if word == LevelName(Error) then Some((Error, |word|))
    else if word == LevelName(Fatal) then Some((Fatal, |word|))
    else None
  }

  /** A level is accepted exactly when its keyword starts `b` and is not
      followed by another identifier byte (so `INFOX` and `info` are refused). */
  lemma LevelGrammar(b: seq<Byte>, l: LogLevel, n: nat)
    ensures ParseLevel(b) == Some((l, n))
        <==> StartsWith(b, LevelName(l)) && n == |LevelName(l)| && (n == |b| || !IsIdentContinue(b[n]))
  {
    var name := LevelName(l);
    if StartsWith(b, name) && n == |name| && (n == |b| || !IsIdentContinue(b[n])) {
      assert b[0] == name[0];
      forall i | 0 <= i < n ensures IsIdentContinue(b[i]) {
        assert b[i] == name[i];
      }
      RunIs(b, IsIdentContinue, n);
      assert b[..IdentLen(b)] == name;
    }
  }

  datatype Logger = Logger(name: seq<Byte>, level: LogLevel)

  predicate NotSlash(b: Byte) { b != SLASH }

  /** `[<name>/<LEVEL>]`: the name is every byte up to the first `/`. */
  function ParseLogger(b: seq<Byte>): (r: Option<(Logger, nat)>)
    ensures r.Some? ==> r.value.1 <= |b|
  {
    if |b| == 0 || b[0] != LBRACKET then None
    else LoggerAfterName(b, Run(b[1..], NotSlash))
  }

  /** The logger grammar once `[` and the name `b[1..1 + n]` are read. */
  function LoggerAfterName(b: seq<Byte>, n: nat): (r: Option<(Logger, nat)>)
    requires 1 + n <= |b|
    ensures r.Some? ==> r.value.1 <= |b|
  {
    if 1 + n == |b| then None
    else match ParseLevel(b[2 + n..])
      case None => None
      case Some((level, m)) => LoggerClose(b, n, level, m)
  }

  /** The logger grammar once the `/` and a level of `m` bytes are read. */
  function LoggerClose(b: seq<Byte>, n: nat, level: LogLevel, m: nat): (r: Option<(Logger, nat)>)
    requires 2 + n + m <= |b|
    ensures r.Some? ==> r.value.1 <= |b|
  {
    if 2 + n + m < |b| && b[2 + n + m] == RBRACKET
    then Some((Logger(b[1..1 + n], level), 3 + n + m))
    else None
  }

  /** The bytes of a logger tag. */
  function LoggerText(lg: Logger): seq<Byte> {
    [LBRACKET] + lg.name + [SLASH] + LevelName(lg.level) + [RBRACKET]
  }

  /** What the logger grammar accepts is a tag whose name holds no `/`. */
  lemma LoggerParsed(b: seq<Byte>, lg: Logger, k: nat)
    requires ParseLogger(b) == Some((lg, k))
    ensures SLASH !in lg.name && k == |LoggerText(lg)| && StartsWith(b, LoggerText(lg))
  {
    var n, m := LoggerSteps(b, lg, k);
    LoggerFromSteps(b, lg, n, m);
  }

  /** The reads a successful logger parse made. */
  lemma LoggerSteps(b: seq<Byte>, lg: Logger, k: nat) returns (n: nat, m: nat)
    requires ParseLogger(b) == Some((lg, k))
    ensures |b| > 0 && b[0] == LBRACKET && Run(b[1..], NotSlash) == n
    ensures 2 + n + m < |b| && ParseLevel(b[2 + n..]) == Some((lg.level, m))
    ensures b[2 + n + m] == RBRACKET && b[1..1 + n] == lg.name && k == 3 + n + m
  {
    n := Run(b[1..], NotSlash);
    m := ParseLevel(b[2 + n..]).value.1;
  }

  lemma LoggerFromSteps(b: seq<Byte>, lg: Logger, n: nat, m: nat)
    requires |b| > 0 && b[0] == LBRACKET && Run(b[1..], NotSlash) == n
    requires 2 + n + m < |b| && ParseLevel(b[2 + n..]) == Some((lg.level, m))
    requires b[2 + n + m] == RBRACKET && b[1..1 + n] == lg.name
    ensures SLASH !in lg.name && 3 + n + m == |LoggerText(lg)| && StartsWith(b, LoggerText(lg))
  {
    var rest := b[2 + n..];
    var k := 3 + n + m;
    assert SLASH !in lg.name by {
      forall i | 0 <= i < n ensures lg.name[i] != SLASH {
        assert lg.name[i] == b[1..][i];
      }
    }
    TagJoin(b, n, m);
    assert b[1 + n] == b[1..][n];
    LevelGrammar(rest, lg.level, m);
  }

  /** The first `3 + n + m` bytes of `b`, cut where a tag's parts would sit. */
  lemma TagJoin(b: seq<Byte>, n: nat, m: nat)
    requires 2 + n + m < |b|
    ensures b[..3 + n + m] == [b[0]] + b[1..1 + n] + [b[1 + n]] + b[2 + n..][..m] + [b[2 + n + m]]
  {
    assert b[2 + n..][..m] == b[2 + n..2 + n + m];
  }

  /** Every tag whose name holds no `/` is accepted, with its name and level. */
  lemma LoggerAccepted(b: seq<Byte>, lg: Logger)
    requires SLASH !in lg.name && StartsWith(b, LoggerText(lg))
    ensures ParseLogger(b) == Some((lg, |LoggerText(lg)|))
  {
    var name := LevelName(lg.level);
    var n := |lg.name|;
    LoggerTextSteps(b, lg);
    LevelGrammar(b[2 + n..], lg.level, |name|);
    LoggerFromParts(b, lg, n, |name|, |LoggerText(lg)|);
  }

  /** Where the name, the level and the closing bracket sit in a tag. */
  lemma LoggerTextSteps(b: seq<Byte>, lg: Logger)
    requires SLASH !in lg.name && StartsWith(b, LoggerText(lg))
    ensures |LoggerText(lg)| == 3 + |lg.name| + |LevelName(lg.level)|
    ensures |b| > 0 && b[0] == LBRACKET && Run(b[1..], NotSlash) == |lg.name|
    ensures b[1..1 + |lg.name|] == lg.name
    ensures 2 + |lg.name| + |LevelName(lg.level)| < |b| && b[2 + |lg.name| + |LevelName(lg.level)|] == RBRACKET
    ensures StartsWith(b[2 + |lg.name|..], LevelName(lg.level))
  {
    var name := LevelName(lg.level);
    var n := |lg.name|;
    var a := [LBRACKET] + lg.name;
    var c := a + [SLASH];
    var d := c + name;
    StartsWithSplit(b, d, [RBRACKET]);
    StartsWithSplit(b, c, name);
    StartsWithSplit(b, a, [SLASH]);
    StartsWithSplit(b, [LBRACKET], lg.name);
    assert b[0] == b[..1][0];
    assert b[1..][n] == b[1 + n..][..1][0];
    assert b[2 + n + |name|] == b[|d|..][..1][0];
    assert b[1..1 + n] == b[1..][..n];
    NameRun(b[1..], lg.name);
  }

  /** A name without `/` followed by `/` is the run of non-`/` bytes. */
  lemma NameRun(s: seq<Byte>, name: seq<Byte>)
    requires SLASH !in name && StartsWith(s, name) && |name| < |s| && s[|name|] == SLASH
    ensures Run(s, NotSlash) == |name|
  {
    forall i | 0 <= i < |name| ensures NotSlash(s[i]) {
      assert s[i] == s[..|name|][i];
    }
    RunIs(s, NotSlash, |name|);
  }

  lemma LoggerFromParts(b: seq<Byte>, lg: Logger, n: nat, m: nat, k: nat)
    requires |b| > 0 && b[0] == LBRACKET
    requires Run(b[1..], NotSlash) == n && 1 + n < |b|
    requires ParseLevel(b[2 + n..]) == Some((lg.level, m))
    requires 2 + n + m < |b| && b[2 + n + m] == RBRACKET
    requires b[1..1 + n] == lg.name
    requires k == 3 + n + m
    ensures ParseLogger(b) == Some((lg, k))
  {
    LoggerCloseIs(b, n, lg, m);
    LoggerAfterNameIs(b, n, lg.level, m);
    SameLogger(ParseLogger(b), lg, 3 + n + m, k);
  }

  lemma LoggerCloseIs(b: seq<Byte>, n: nat, lg: Logger, m: nat)
    requires 2 + n + m < |b| && b[2 + n + m] == RBRACKET && b[1..1 + n] == lg.name
    ensures LoggerClose(b, n, lg.level, m) == Some((lg, 3 + n + m))
  {
  }

  lemma LoggerAfterNameIs(b: seq<Byte>, n: nat, level: LogLevel, m: nat)
    requires 1 + n < |b| && ParseLevel(b[2 + n..]) == Some((level, m))
    ensures LoggerAfterName(b, n) == LoggerClose(b, n, level, m)
  {
  }

  lemma SameLogger(r: Option<(Logger, nat)>, lg: Logger, x: nat, y: nat)
    requires x == y && r == Some((lg, x))
    ensures r == Some((lg, y))
  {
  }

  /** The logger grammar accepts exactly a tag whose name holds no `/`. */
  lemma LoggerGrammar(b: seq<Byte>, lg: Logger, k: nat)
    ensures ParseLogger(b) == Some((lg, k))
        <==> SLASH !in lg.name && k == |LoggerText(lg)| && StartsWith(b, LoggerText(lg))
  {
    if ParseLogger(b) == Some((lg, k)) {
      LoggerParsed(b, lg, k);
    }
    if SLASH !in lg.name && k == |LoggerText(lg)| && StartsWith(b, LoggerText(lg)) {
      LoggerAccepted(b, lg);
    }
  }

  /** The logger the specialised payload grammars are reserved for. */
  const SERVER_THREAD: seq<Byte> := [83, 101, 114, 118, 101, 114, 32, 116, 104, 114, 101, 97, 100]  // Server thread

  const COLON_SPACE: seq<Byte> := [COLON, SPACE]

  /** `[` time `] ` logger `: `: the time, the logger and how many bytes the
      prefix took. */
  function ParsePrefix(line: seq<Byte>): (r: Option<(HmsTime, Logger, nat)>)
    ensures r.Some? ==> r.value.2 <= |line|
  {
    if |line| < 11 || line[0] != LBRACKET then None
    else match ParseTime(line[1..])
      case None => None
      case Some((time, _)) => PrefixAfterTime(line, time)
  }

  /** The prefix grammar once `[` and the time are read. */
  function PrefixAfterTime(line: seq<Byte>, time: HmsTime): (r: Option<(HmsTime, Logger, nat)>)
    requires |line| >= 11
    ensures r.Some? ==> r.value.2 <= |line|
  {
    if line[9] != RBRACKET || line[10] != SPACE then None
    else match ParseLogger(line[11..])
      case None => None
      case Some((logger, k)) => PrefixClose(line, time, logger, k)
  }

  /** The prefix grammar once the logger tag of `k` bytes is read. */
  function PrefixClose(line: seq<Byte>, time: HmsTime, logger: Logger, k: nat): (r: Option<(HmsTime, Logger, nat)>)
    requires 11 + k <= |line|
    ensures r.Some? ==> r.value.2 <= |line|
  {
    if StartsWith(line[11 + k..], COLON_SPACE) then Some((time, logger, 13 + k)) else None
  }

  /** The bytes of a line prefix. */
  function PrefixText(t: HmsTime, lg: Logger): seq<Byte> {
    [LBRACKET] + FormatTime(t) + [RBRACKET, SPACE] + LoggerText(lg) + COLON_SPACE
  }

  /** What the prefix grammar accepts is the prefix text of a two-digit time
      and a logger whose name holds no `/`. */
  lemma PrefixParsed(line: seq<Byte>, t: HmsTime, lg: Logger, k: nat)
    requires ParsePrefix(line) == Some((t, lg, k))
    ensures TwoDigit(t) && SLASH !in lg.name && k == |PrefixText(t, lg)| && StartsWith(line, PrefixText(t, lg))
  {
    var tn, m := PrefixSteps(line, t, lg, k);
    PrefixFromSteps(line, t, lg, tn, m);
  }

  /** The reads a successful prefix parse made. */
  lemma PrefixSteps(line: seq<Byte>, t: HmsTime, lg: Logger, k: nat) returns (tn: nat, m: nat)
    requires ParsePrefix(line) == Some((t, lg, k))
    ensures |line| >= 11 && line[0] == LBRACKET && line[9] == RBRACKET && line[10] == SPACE
    ensures ParseTime(line[1..]) == Some((t, tn))
    ensures ParseLogger(line[11..]) == Some((lg, m)) && 11 + m <= |line|
    ensures StartsWith(line[11 + m..], COLON_SPACE) && k == 13 + m
  {
    tn := ParseTime(line[1..]).value.1;
    m := ParseLogger(line[11..]).value.1;
  }

  lemma PrefixFromSteps(line: seq<Byte>, t: HmsTime, lg: Logger, tn: nat, m: nat)
    requires |line| >= 11 && line[0] == LBRACKET && line[9] == RBRACKET && line[10] == SPACE
    requires ParseTime(line[1..]) == Some((t, tn))
    requires ParseLogger(line[11..]) == Some((lg, m)) && 11 + m <= |line|
    requires StartsWith(line[11 + m..], COLON_SPACE)
    ensures TwoDigit(t) && SLASH !in lg.name && 13 + m == |PrefixText(t, lg)| && StartsWith(line, PrefixText(t, lg))
  {
    PrefixJoin(line, m);
    TimeGrammar(line[1..], t, tn);
    LoggerParsed(line[11..], lg, m);
  }

  /** The first `13 + m` bytes of `line`, cut where a prefix's parts would sit. */
  lemma PrefixJoin(line: seq<Byte>, m: nat)
    requires 13 + m <= |line|
    ensures line[..13 + m]
         == [line[0]] + line[1..][..8] + [line[9], line[10]] + line[11..][..m] + line[11 + m..][..2]
  {
    assert line[1..][..8] == line[1..9];
    assert line[11..][..m] == line[11..11 + m];
    assert line[11 + m..][..2] == line[11 + m..13 + m];
  }

  /** Every such prefix text is accepted, with its time and logger. */
  lemma PrefixAccepted(line: seq<Byte>, t: HmsTime, lg: Logger)
    requires TwoDigit(t) && SLASH !in lg.name && StartsWith(line, PrefixText(t, lg))
    ensures ParsePrefix(line) == Some((t, lg, |PrefixText(t, lg)|))
  {
    PrefixPieces(line, t, lg);
    TimeGrammar(line[1..], t, 8);
    LoggerAccepted(line[11..], lg);
    PrefixFromParts(line, t, lg, |LoggerText(lg)|);
  }

  /** The pieces of a line that starts with a prefix text. */
  lemma PrefixPieces(line: seq<Byte>, t: HmsTime, lg: Logger)
    requires TwoDigit(t) && StartsWith(line, PrefixText(t, lg))
    ensures |PrefixText(t, lg)| == 13 + |LoggerText(lg)|
    ensures line[0] == LBRACKET && line[9] == RBRACKET && line[10] == SPACE
    ensures StartsWith(line[1..], FormatTime(t))
    ensures StartsWith(line[11..], LoggerText(lg))
    ensures StartsWith(line[11 + |LoggerText(lg)|..], COLON_SPACE)
  {
    TimeRoundTrip(t, []);
    var a := [LBRACKET] + FormatTime(t);
    var b := a + [RBRACKET, SPACE];
    var c := b + LoggerText(lg);
    StartsWithSplit(line, c, COLON_SPACE);
    StartsWithSplit(line, b, LoggerText(lg));
    StartsWithSplit(line, a, [RBRACKET, SPACE]);
    StartsWithSplit(line, [LBRACKET], FormatTime(t));
    assert line[0] == line[..1][0];
    assert line[9] == line[9..][..2][0] && line[10] == line[9..][..2][1];
  }

  lemma PrefixFromParts(line: seq<Byte>, t: HmsTime, lg: Logger, m: nat)
    requires |line| >= 11 && line[0] == LBRACKET && line[9] == RBRACKET && line[10] == SPACE
    requires ParseTime(line[1..]) == Some((t, 8))
    requires ParseLogger(line[11..]) == Some((lg, m))
    requires StartsWith(line[11 + m..], COLON_SPACE)
    ensures ParsePrefix(line) == Some((t, lg, 13 + m))
  {
  }

  /** The prefix grammar accepts exactly the prefix text of a two-digit time
      and a logger whose name holds no `/`. */
  lemma PrefixGrammar(line: seq<Byte>, t: HmsTime, lg: Logger, k: nat)
    ensures ParsePrefix(line) == Some((t, lg, k))
        <==> TwoDigit(t) && SLASH !in lg.name && k == |PrefixText(t, lg)| && StartsWith(line, PrefixText(t, lg))
  {
    if ParsePrefix(line) == Some((t, lg, k)) {
      PrefixParsed(line, t, lg, k);
    }
    if TwoDigit(t) && SLASH !in lg.name && k == |PrefixText(t, lg)| && StartsWith(line, PrefixText(t, lg)) {
      PrefixAccepted(line, t, lg);
    }
  }
}
