/** The payload grammars that do not depend on the death-template table:
    chat, join, leave, advancement and generic. Each takes the bytes after the
    line prefix and, on success, gives the event fields and how many bytes it
    consumed. */
module Grammars {
  import opened Bytes

  /** The event a payload grammar produces (`PartialLog`). Every field is a
      slice of the payload. */
  datatype Partial =
    | Generic(message: seq<Byte>)
    | Chat(secure: bool, sender: seq<Byte>, message: seq<Byte>)
    | Join(player: seq<Byte>)
    | Leave(player: seq<Byte>)
    | Advancement(player: seq<Byte>, advancement: seq<Byte>)
    | Death(victim: seq<Byte>, attacker: seq<Byte>, weapon: seq<Byte>)

  const NOT_SECURE: seq<Byte> := [91, 78, 111, 116, 32, 83, 101, 99, 117, 114, 101, 93]  // [Not Secure]
  const JOINED: seq<Byte> := [32, 106, 111, 105, 110, 101, 100, 32, 116, 104, 101, 32, 103, 97, 109, 101]  // " joined the game"
  const LEFT: seq<Byte> := [32, 108, 101, 102, 116, 32, 116, 104, 101, 32, 103, 97, 109, 101]  // " left the game"
  const MADE: seq<Byte> := [32, 104, 97, 115, 32, 109, 97, 100, 101, 32, 116, 104, 101, 32, 97, 100, 118, 97, 110, 99, 101, 109, 101, 110, 116, 32]  // " has made the advancement "
  const REACHED: seq<Byte> := [32, 104, 97, 115, 32, 114, 101, 97, 99, 104, 101, 100, 32, 116, 104, 101, 32, 103, 111, 97, 108, 32]  // " has reached the goal "
  const COMPLETED: seq<Byte> := [32, 104, 97, 115, 32, 99, 111, 109, 112, 108, 101, 116, 101, 100, 32, 116, 104, 101, 32, 99, 104, 97, 108, 108, 101, 110, 103, 101, 32]  // " has completed the challenge "

  /** The advancement connectors, in the order the grammar tries them. */
  const CONNECTORS: seq<seq<Byte>> := [MADE, REACHED, COMPLETED]

  predicate NotGt(b: Byte) { b != GT }

  predicate NotRBracket(b: Byte) { b != RBRACKET }

  // ---------------------------------------------------------------- chat

  /** `<name>`: one or more bytes other than `>` between angle brackets; the
      sender is the name without the brackets. */
  function AngleSender(b: seq<Byte>): (r: Option<(seq<Byte>, nat)>)
    ensures r.Some? ==> r.value.1 <= |b|
  {
    if |b| == 0 || b[0] != LT then None
    else
      var n := Run(b[1..], NotGt);
      if n == 0 || 1 + n == |b| then None else Some((b[1..1 + n], n + 2))
  }

  /** `[name]`: one or more bytes other than `]` between square brackets; the
      sender keeps the brackets. */
  function BracketSender(b: seq<Byte>): (r: Option<(seq<Byte>, nat)>)
    ensures r.Some? ==> r.value.1 <= |b|
  {
    if |b| == 0 || b[0] != LBRACKET then None
    else
      var n := Run(b[1..], NotRBracket);
      if n == 0 || 1 + n == |b| then None else Some((b[..n + 2], n + 2))
  }

  /** The sender: the angle form, or else the bracket form. */
  function ParseSender(b: seq<Byte>): (r: Option<(seq<Byte>, nat)>)
    ensures r.Some? ==> r.value.1 <= |b|
  {
    match AngleSender(b)
    case Some(x) => Some(x)
    case None => BracketSender(b)
  }

  /** An optional `[Not Secure]` marker, a space (required whether or not the
      marker is there), the sender, a space, and a non-empty message that runs
      to the end of the payload. */
  function ParseChat(p: seq<Byte>): (r: Option<(Partial, nat)>)
    ensures r.Some? ==> r.value.1 == |p|
  {
    var secure := !StartsWith(p, NOT_SECURE);
    var i := if secure then 0 else |NOT_SECURE|;
    if i >= |p| || p[i] != SPACE then None
    else match ParseSender(p[i + 1..])
      case None => None
      case Some((sender, j)) =>
        var k := i + 1 + j;
        if k >= |p| || p[k] != SPACE || k + 1 == |p| then None
        else Some((Chat(secure, sender, p[k + 1..]), |p|))
  }

  /** The bytes in front of the sender: the marker exactly when not secure. */
  function Marker(secure: bool): seq<Byte> {
    if secure then [] else NOT_SECURE
  }

  /** A sender written `<sender>`. */
  predicate AngleName(sender: seq<Byte>) {
    |sender| >= 1 && GT !in sender
  }

  /** A sender written as itself, `[inner]`. */
  predicate BracketName(sender: seq<Byte>) {
    |sender| >= 3 && sender[0] == LBRACKET && sender[|sender| - 1] == RBRACKET
    && RBRACKET !in sender[1..|sender| - 1]
  }

  /** The payload of a chat line, in either sender form. */
  predicate ChatText(p: seq<Byte>, secure: bool, sender: seq<Byte>, message: seq<Byte>) {
    |message| >= 1
    && ((AngleName(sender) && p == Marker(secure) + [SPACE] + [LT] + sender + [GT] + [SPACE] + message)
        || (BracketName(sender) && p == Marker(secure) + [SPACE] + sender + [SPACE] + message))
  }

  lemma AngleSenderShape(b: seq<Byte>, sender: seq<Byte>, j: nat)
    requires AngleSender(b) == Some((sender, j))
    ensures AngleName(sender) && j == |sender| + 2 && b[..j] == [LT] + sender + [GT]
  {
    var n := j - 2;
    assert b[1 + n] == b[1..][n];
    assert GT !in sender by {
      forall i | 0 <= i < n ensures sender[i] != GT {
        assert sender[i] == b[1..][i];
      }
    }
    assert b[..j] == [b[0]] + b[1..1 + n] + [b[1 + n]];
  }

  lemma BracketSenderShape(b: seq<Byte>, sender: seq<Byte>, j: nat)
    requires BracketSender(b) == Some((sender, j))
    ensures BracketName(sender) && j == |sender| && b[..j] == sender
  {
    var n := j - 2;
    assert b[1 + n] == b[1..][n];
    assert sender[1..|sender| - 1] == b[1..][..n];
    assert RBRACKET !in b[1..][..n] by {
      forall i | 0 <= i < n ensures b[1..][i] != RBRACKET {
      }
    }
  }

  lemma AngleSenderAccepted(b: seq<Byte>, sender: seq<Byte>)
    requires AngleName(sender) && StartsWith(b, [LT] + sender + [GT])
    ensures ParseSender(b) == Some((sender, |sender| + 2))
  {
    var text := [LT] + sender + [GT];
    var n := |sender|;
    assert b[..|text|] == text;
    assert b[0] == LT;
    forall i | 0 <= i < n ensures NotGt(b[1..][i]) {
      assert b[1..][i] == text[1 + i] == sender[i];
    }
    assert b[1..][n] == text[1 + n] == GT;
    RunIs(b[1..], NotGt, n);
    assert b[1..1 + n] == b[..|text|][1..1 + n] == text[1..1 + n] == sender;
  }

  lemma BracketSenderAccepted(b: seq<Byte>, sender: seq<Byte>)
    requires BracketName(sender) && StartsWith(b, sender)
    ensures ParseSender(b) == Some((sender, |sender|))
  {
    var n := |sender| - 2;
    assert b[..|sender|] == sender;
    assert b[0] == LBRACKET;
    forall i | 0 <= i < n ensures NotRBracket(b[1..][i]) {
      assert b[1..][i] == sender[1..|sender| - 1][i];
    }
    assert b[1..][n] == sender[|sender| - 1] == RBRACKET;
    RunIs(b[1..], NotRBracket, n);
  }

  /** Whatever the chat grammar accepts is a chat text: `secure` is true
      exactly when the marker is absent, a space follows the marker position,
      an angle-bracket sender loses its brackets, a square-bracket sender keeps
      them, and the message is the non-empty rest. */
  lemma ChatParsed(p: seq<Byte>, secure: bool, sender: seq<Byte>, message: seq<Byte>, n: nat)
    requires ParseChat(p) == Some((Chat(secure, sender, message), n))
    ensures n == |p| && ChatText(p, secure, sender, message)
  {
    var j := ChatSteps(p, secure, sender, message, n);
    ChatFromSteps(p, secure, sender, message, j);
  }

  /** The steps the chat grammar took on its way to a success. */
  lemma ChatSteps(p: seq<Byte>, secure: bool, sender: seq<Byte>, message: seq<Byte>, n: nat) returns (j: nat)
    requires ParseChat(p) == Some((Chat(secure, sender, message), n))
    ensures n == |p| && |Marker(secure)| < |p| && p[..|Marker(secure)|] == Marker(secure)
    ensures p[|Marker(secure)|] == SPACE
    ensures ParseSender(p[|Marker(secure)| + 1..]) == Some((sender, j))
    ensures |Marker(secure)| + 1 + j < |p| && p[|Marker(secure)| + 1 + j] == SPACE
    ensures message == p[|Marker(secure)| + 1 + j + 1..] && |message| >= 1
  {
    var i := |Marker(secure)|;
    j :| ParseSender(p[i + 1..]) == Some((sender, j)) && i + 1 + j < |p|
         && p[i + 1 + j] == SPACE && message == p[i + 1 + j + 1..] && |message| >= 1;
  }

  lemma ChatFromSteps(p: seq<Byte>, secure: bool, sender: seq<Byte>, message: seq<Byte>, j: nat)
    requires |Marker(secure)| < |p| && p[..|Marker(secure)|] == Marker(secure)
    requires p[|Marker(secure)|] == SPACE
    requires ParseSender(p[|Marker(secure)| + 1..]) == Some((sender, j))
    requires |Marker(secure)| + 1 + j < |p| && p[|Marker(secure)| + 1 + j] == SPACE
    requires message == p[|Marker(secure)| + 1 + j + 1..] && |message| >= 1
    ensures ChatText(p, secure, sender, message)
  {
    var i := |Marker(secure)|;
    var b := p[i + 1..];
    var k := i + 1 + j;
    var w := if AngleSender(b).Some? then [LT] + sender + [GT] else sender;
    assert b[..j] == w && ((AngleName(sender) && w == [LT] + sender + [GT])
                           || (BracketName(sender) && w == sender)) by {
      if AngleSender(b).Some? {
        AngleSenderShape(b, sender, j);
      } else {
        BracketSenderShape(b, sender, j);
      }
    }
    assert p[i + 1..k] == w by {
      assert b[..j] == p[i + 1..k];
    }
    SplitAround(p, i, k);
    ChatTextFromParts(p, secure, sender, message, w);
  }

  /** `p` cut around the two bytes at `i` and `k`. */
  lemma SplitAround(p: seq<Byte>, i: nat, k: nat)
    requires i < k < |p|
    ensures p == p[..i] + [p[i]] + p[i + 1..k] + [p[k]] + p[k + 1..]
  {
    assert p[..k] == p[..i] + [p[i]] + p[i + 1..k];
    assert p == p[..k] + [p[k]] + p[k + 1..];
  }

  lemma ChatTextFromParts(p: seq<Byte>, secure: bool, sender: seq<Byte>, message: seq<Byte>, w: seq<Byte>)
    requires (AngleName(sender) && w == [LT] + sender + [GT]) || (BracketName(sender) && w == sender)
    requires |message| >= 1 && p == Marker(secure) + [SPACE] + w + [SPACE] + message
    ensures ChatText(p, secure, sender, message)
  {
  }

  /** Every chat text is accepted, with its marker flag, sender and message. */
  lemma ChatAccepted(p: seq<Byte>, secure: bool, sender: seq<Byte>, message: seq<Byte>)
    requires ChatText(p, secure, sender, message)
    ensures ParseChat(p) == Some((Chat(secure, sender, message), |p|))
  {
    var j := ChatTextSteps(p, secure, sender, message);
    ChatFromStepsAccepted(p, secure, sender, message, j);
  }

  /** The steps the chat grammar takes on a chat text. */
  lemma ChatTextSteps(p: seq<Byte>, secure: bool, sender: seq<Byte>, message: seq<Byte>) returns (j: nat)
    requires ChatText(p, secure, sender, message)
    ensures |Marker(secure)| < |p| && p[..|Marker(secure)|] == Marker(secure)
    ensures p[|Marker(secure)|] == SPACE
    ensures ParseSender(p[|Marker(secure)| + 1..]) == Some((sender, j))
    ensures |Marker(secure)| + 1 + j < |p| && p[|Marker(secure)| + 1 + j] == SPACE
    ensures message == p[|Marker(secure)| + 1 + j + 1..] && |message| >= 1
  {
    var m := Marker(secure);
    if AngleName(sender) && p == m + [SPACE] + [LT] + sender + [GT] + [SPACE] + message {
      j := AngleTextSteps(p, m, sender, message);
    } else {
      j := BracketTextSteps(p, m, sender, message);
    }
  }

  lemma AngleTextSteps(p: seq<Byte>, m: seq<Byte>, sender: seq<Byte>, message: seq<Byte>) returns (j: nat)
    requires AngleName(sender) && p == m + [SPACE] + [LT] + sender + [GT] + [SPACE] + message
    ensures |m| < |p| && p[..|m|] == m && p[|m|] == SPACE
    ensures ParseSender(p[|m| + 1..]) == Some((sender, j))
    ensures |m| + 1 + j < |p| && p[|m| + 1 + j] == SPACE && message == p[|m| + 1 + j + 1..]
  {
    var text := [LT] + sender + [GT];
    assert p == m + [SPACE] + text + [SPACE] + message;
    LayoutIndices(p, m, text, message);
    assert StartsWith(p[|m| + 1..], text) by {
      assert p[|m| + 1..][..|text|] == text;
    }
    AngleSenderAccepted(p[|m| + 1..], sender);
    j := |text|;
  }

  lemma BracketTextSteps(p: seq<Byte>, m: seq<Byte>, sender: seq<Byte>, message: seq<Byte>) returns (j: nat)
    requires BracketName(sender) && p == m + [SPACE] + sender + [SPACE] + message
    ensures |m| < |p| && p[..|m|] == m && p[|m|] == SPACE
    ensures ParseSender(p[|m| + 1..]) == Some((sender, j))
    ensures |m| + 1 + j < |p| && p[|m| + 1 + j] == SPACE && message == p[|m| + 1 + j + 1..]
  {
    LayoutIndices(p, m, sender, message);
    assert StartsWith(p[|m| + 1..], sender) by {
      assert p[|m| + 1..][..|sender|] == sender;
    }
    BracketSenderAccepted(p[|m| + 1..], sender);
    j := |sender|;
  }

  /** Where the pieces of `m + " " + w + " " + message` are. */
  lemma LayoutIndices(p: seq<Byte>, m: seq<Byte>, w: seq<Byte>, message: seq<Byte>)
    requires p == m + [SPACE] + w + [SPACE] + message
    ensures |m| < |p| && p[..|m|] == m && p[|m|] == SPACE
    ensures p[|m| + 1..] == w + [SPACE] + message
    ensures p[|m| + 1 + |w|] == SPACE && p[|m| + 1 + |w| + 1..] == message
  {
  }

  lemma ChatFromStepsAccepted(p: seq<Byte>, secure: bool, sender: seq<Byte>, message: seq<Byte>, j: nat)
    requires |Marker(secure)| < |p| && p[..|Marker(secure)|] == Marker(secure)
    requires p[|Marker(secure)|] == SPACE
    requires ParseSender(p[|Marker(secure)| + 1..]) == Some((sender, j))
    requires |Marker(secure)| + 1 + j < |p| && p[|Marker(secure)| + 1 + j] == SPACE
    requires message == p[|Marker(secure)| + 1 + j + 1..] && |message| >= 1
    ensures ParseChat(p) == Some((Chat(secure, sender, message), |p|))
  {
    if secure {
      assert !StartsWith(p, NOT_SECURE) by {
        assert p[0] == SPACE;
      }
    } else {
      assert StartsWith(p, NOT_SECURE);
    }
  }

  // ------------------------------------------------------ join and leave

  /** A non-empty maximal run of non-whitespace bytes (the player) followed
      at once by `literal`; there is no backtracking into the run. */
  function PlayerThen(p: seq<Byte>, literal: seq<Byte>): (r: Option<(seq<Byte>, nat)>)
    ensures r.Some? ==> r.value.1 <= |p|
  {
    var n := Run(p, NotWhitespace);
    if n == 0 || !StartsWith(p[n..], literal) then None else Some((p[..n], n + |literal|))
  }

  /** A player name: non-empty, without whitespace. */
  predicate PlayerName(player: seq<Byte>) {
    |player| >= 1 && forall i :: 0 <= i < |player| ==> NotWhitespace(player[i])
  }

  /** When the literal starts with whitespace, the grammar accepts exactly a
      player name followed by the literal, so `Bob Smith joined the game` is
      not a join. */
  lemma PlayerThenShape(p: seq<Byte>, literal: seq<Byte>, player: seq<Byte>, n: nat)
    requires |literal| > 0 && IsAsciiWhitespace(literal[0])
    ensures PlayerThen(p, literal) == Some((player, n))
        <==> PlayerName(player) && n == |player| + |literal| && StartsWith(p, player + literal)
  {
    if PlayerThen(p, literal) == Some((player, n)) {
      PlayerThenParsed(p, literal, player, n);
    }
    if PlayerName(player) && n == |player| + |literal| && StartsWith(p, player + literal) {
      PlayerThenAccepted(p, literal, player);
    }
  }

  lemma PlayerThenParsed(p: seq<Byte>, literal: seq<Byte>, player: seq<Byte>, n: nat)
    requires PlayerThen(p, literal) == Some((player, n))
    ensures PlayerName(player) && n == |player| + |literal| && StartsWith(p, player + literal)
  {
    var m := |player|;
    assert p[m..][..|literal|] == p[m..n];
    assert p[..n] == p[..m] + p[m..n];
  }

  lemma PlayerThenAccepted(p: seq<Byte>, literal: seq<Byte>, player: seq<Byte>)
    requires |literal| > 0 && IsAsciiWhitespace(literal[0])
    requires PlayerName(player) && StartsWith(p, player + literal)
    ensures PlayerThen(p, literal) == Some((player, |player| + |literal|))
  {
    StartsWithSplit(p, player, literal);
    PlayerRun(p, player, literal);
  }

  /** `<player> joined the game`. */
  function ParseJoin(p: seq<Byte>): (r: Option<(Partial, nat)>)
    ensures r.Some? ==> r.value.1 <= |p|
  {
    match PlayerThen(p, JOINED)
    case None => None
    case Some((player, n)) => Some((Join(player), n))
  }

  /** `<player> left the game`. */
  function ParseLeave(p: seq<Byte>): (r: Option<(Partial, nat)>)
    ensures r.Some? ==> r.value.1 <= |p|
  {
    match PlayerThen(p, LEFT)
    case None => None
    case Some((player, n)) => Some((Leave(player), n))
  }

  // --------------------------------------------------------- advancement

  /** The first of the three connectors that starts `b`, and its length. */
  function Connector(b: seq<Byte>): (r: Option<nat>)
    ensures r.Some? ==> r.value <= |b|
  {
    if StartsWith(b, MADE) then Some(|MADE|)
    else if StartsWith(b, REACHED) then Some(|REACHED|)
    else if StartsWith(b, COMPLETED) then Some(|COMPLETED|)
    else None
  }

  /** `[name]`: one or more bytes other than `]`; the name excludes the brackets. */
  function BracketedName(b: seq<Byte>): (r: Option<(seq<Byte>, nat)>)
    ensures r.Some? ==> r.value.1 <= |b|
  {
    if |b| == 0 || b[0] != LBRACKET then None
    else
      var n := Run(b[1..], NotRBracket);
      if n == 0 || 1 + n == |b| then None else Some((b[1..1 + n], n + 2))
  }

  /** `<player><connector>[<advancement>]`. */
  function ParseAdvancement(p: seq<Byte>): (r: Option<(Partial, nat)>)
    ensures r.Some? ==> r.value.1 <= |p|
  {
    var n := Run(p, NotWhitespace);
    if n == 0 then None else AfterPlayer(p, n)
  }

  /** The advancement grammar once the player `p[..n]` is read. */
  function AfterPlayer(p: seq<Byte>, n: nat): (r: Option<(Partial, nat)>)
    requires n <= |p|
    ensures r.Some? ==> r.value.1 <= |p|
  {
    match Connector(p[n..])
    case None => None
    case Some(c) => AfterConnector(p, n, c)
  }

  /** The advancement grammar once the player `p[..n]` and a connector of
      length `c` are read. */
  function AfterConnector(p: seq<Byte>, n: nat, c: nat): (r: Option<(Partial, nat)>)
    requires n + c <= |p|
    ensures r.Some? ==> r.value.1 <= |p|
  {
    match BracketedName(p[n + c..])
    case None => None
    case Some((name, m)) => Some((Advancement(p[..n], name), n + c + m))
  }

  /** An advancement name: non-empty, without `]`. */
  predicate AdvancementName(name: seq<Byte>) {
    |name| >= 1 && RBRACKET !in name
  }

  /** The bytes an advancement grammar consumes. */
  function AdvancementText(player: seq<Byte>, connector: seq<Byte>, name: seq<Byte>): seq<Byte> {
    player + connector + ([LBRACKET] + name + [RBRACKET])
  }

  lemma ConnectorIs(b: seq<Byte>, c: seq<Byte>)
    requires c in CONNECTORS && StartsWith(b, c)
    ensures Connector(b) == Some(|c|)
  {
    assert b[5] == c[5];
  }

  lemma BracketedNameParsed(b: seq<Byte>, name: seq<Byte>, m: nat)
    requires BracketedName(b) == Some((name, m))
    ensures AdvancementName(name) && m == |name| + 2 && b[..m] == [LBRACKET] + name + [RBRACKET]
  {
    var n := m - 2;
    assert b[1 + n] == b[1..][n];
    assert RBRACKET !in name by {
      forall i | 0 <= i < n ensures name[i] != RBRACKET {
        assert name[i] == b[1..][i];
      }
    }
    assert b[..m] == [b[0]] + b[1..1 + n] + [b[1 + n]];
  }

  lemma BracketedNameAccepted(b: seq<Byte>, name: seq<Byte>)
    requires AdvancementName(name) && StartsWith(b, [LBRACKET] + name + [RBRACKET])
    ensures BracketedName(b) == Some((name, |name| + 2))
  {
    var text := [LBRACKET] + name + [RBRACKET];
    var n := |name|;
    assert b[..|text|] == text;
    assert b[0] == LBRACKET;
    forall i | 0 <= i < n ensures NotRBracket(b[1..][i]) {
      assert b[1..][i] == text[1 + i] == name[i];
    }
    assert b[1..][n] == text[1 + n] == RBRACKET;
    RunIs(b[1..], NotRBracket, n);
    assert b[1..1 + n] == b[..|text|][1..1 + n] == text[1..1 + n] == name;
  }

  /** The connector the grammar found is one of the three. */
  lemma ConnectorFound(b: seq<Byte>, c: nat) returns (conn: seq<Byte>)
    requires Connector(b) == Some(c)
    ensures conn in CONNECTORS && |conn| == c && StartsWith(b, conn)
  {
    conn := if StartsWith(b, MADE) then MADE else if StartsWith(b, REACHED) then REACHED else COMPLETED;
  }

  /** Whatever the advancement grammar accepts is a player name, one of the
      three connectors and a bracketed advancement name. */
  lemma AdvancementParsed(p: seq<Byte>, player: seq<Byte>, name: seq<Byte>, n: nat)
    requires ParseAdvancement(p) == Some((Advancement(player, name), n))
    ensures PlayerName(player)
    ensures exists c :: c in CONNECTORS && n == |AdvancementText(player, c, name)|
                        && StartsWith(p, AdvancementText(player, c, name))
  {
    var r, c, m := AdvancementSteps(p, player, name, n);
    var conn := ConnectorFound(p[r..], c);
    AdvancementFromSteps(p, player, conn, c, name, m, r);
  }

  /** The three reads a successful advancement parse made. */
  lemma AdvancementSteps(p: seq<Byte>, player: seq<Byte>, name: seq<Byte>, n: nat) returns (r: nat, c: nat, m: nat)
    requires ParseAdvancement(p) == Some((Advancement(player, name), n))
    ensures r == Run(p, NotWhitespace) && r >= 1 && r + c <= |p| && player == p[..r]
    ensures Connector(p[r..]) == Some(c)
    ensures BracketedName(p[r + c..]) == Some((name, m)) && n == r + c + m
  {
    r := Run(p, NotWhitespace);
    c := Connector(p[r..]).value;
    m := BracketedName(p[r + c..]).value.1;
  }

  lemma AdvancementFromSteps(p: seq<Byte>, player: seq<Byte>, conn: seq<Byte>, c: nat, name: seq<Byte>, m: nat, r: nat)
    requires r == Run(p, NotWhitespace) && r >= 1 && player == p[..r]
    requires StartsWith(p[r..], conn) && |conn| == c
    requires BracketedName(p[r + c..]) == Some((name, m))
    ensures PlayerName(player)
    ensures r + c + m == |AdvancementText(player, conn, name)|
    ensures StartsWith(p, AdvancementText(player, conn, name))
  {
    var n := r + c + m;
    assert p[r..r + c] == p[r..][..c];
    assert p[r + c..n] == p[r + c..][..m];
    BracketedNameParsed(p[r + c..], name, m);
    AdvancementLength(player, conn, name);
    SlicesJoin(p, player, conn, [LBRACKET] + name + [RBRACKET], r, r + c, n);
  }

  lemma SlicesJoin(p: seq<Byte>, x: seq<Byte>, y: seq<Byte>, z: seq<Byte>, i: nat, j: nat, n: nat)
    requires i <= j <= n <= |p|
    requires p[..i] == x && p[i..j] == y && p[j..n] == z
    ensures p[..n] == x + y + z
  {
    assert p[..n] == p[..i] + p[i..j] + p[j..n];
  }

  /** Every player name, connector and advancement name is accepted. */
  lemma AdvancementAccepted(p: seq<Byte>, player: seq<Byte>, c: seq<Byte>, name: seq<Byte>)
    requires PlayerName(player) && c in CONNECTORS && AdvancementName(name)
    requires StartsWith(p, AdvancementText(player, c, name))
    ensures ParseAdvancement(p) == Some((Advancement(player, name), |AdvancementText(player, c, name)|))
  {
    var k := |AdvancementText(player, c, name)|;
    AdvancementLength(player, c, name);
    AcceptedSteps(p, player, c, name);
    AdvancementFromParts(p, player, |c|, name, k);
  }

  lemma AdvancementLength(player: seq<Byte>, c: seq<Byte>, name: seq<Byte>)
    ensures |AdvancementText(player, c, name)| == |player| + |c| + (|name| + 2)
  {
  }

  /** The three reads the advancement grammar makes on an advancement text. */
  lemma AcceptedSteps(p: seq<Byte>, player: seq<Byte>, c: seq<Byte>, name: seq<Byte>)
    requires PlayerName(player) && c in CONNECTORS && AdvancementName(name)
    requires StartsWith(p, AdvancementText(player, c, name))
    ensures Run(p, NotWhitespace) == |player| && |player| != 0 && p[..|player|] == player
    ensures |player| + |c| <= |p| && Connector(p[|player|..]) == Some(|c|)
    ensures BracketedName(p[|player| + |c|..]) == Some((name, |name| + 2))
  {
    assert |c| > 0 && c[0] == SPACE;
    AdvancementTextSteps(p, player, c, name);
    ConnectorIs(p[|player|..], c);
    BracketedNameAccepted(p[|player| + |c|..], name);
  }

  lemma SameResult(r: Option<(Partial, nat)>, e: Partial, x: nat, y: nat)
    requires x == y && r == Some((e, x))
    ensures r == Some((e, y))
  {
  }

  lemma AdvancementFromParts(p: seq<Byte>, player: seq<Byte>, c: nat, name: seq<Byte>, k: nat)
    requires Run(p, NotWhitespace) == |player| && |player| != 0 && p[..|player|] == player
    requires |player| + c <= |p| && Connector(p[|player|..]) == Some(c)
    requires BracketedName(p[|player| + c..]) == Some((name, |name| + 2))
    requires k == |player| + c + (|name| + 2)
    ensures ParseAdvancement(p) == Some((Advancement(player, name), k))
  {
    AfterConnectorIs(p, player, c, name);
    AfterPlayerIs(p, |player|, c);
    ParseAdvancementIs(p, |player|);
    SameResult(ParseAdvancement(p), Advancement(player, name), |player| + c + (|name| + 2), k);
  }

  lemma AfterConnectorIs(p: seq<Byte>, player: seq<Byte>, c: nat, name: seq<Byte>)
    requires |player| + c <= |p| && p[..|player|] == player
    requires BracketedName(p[|player| + c..]) == Some((name, |name| + 2))
    ensures AfterConnector(p, |player|, c) == Some((Advancement(player, name), |player| + c + (|name| + 2)))
  {
  }

  lemma AfterPlayerIs(p: seq<Byte>, n: nat, c: nat)
    requires n + c <= |p| && Connector(p[n..]) == Some(c)
    ensures AfterPlayer(p, n) == AfterConnector(p, n, c)
  {
  }

  lemma ParseAdvancementIs(p: seq<Byte>, n: nat)
    requires Run(p, NotWhitespace) == n && n != 0
    ensures ParseAdvancement(p) == AfterPlayer(p, n)
  {
  }

  /** Where the player, the connector and the bracketed name sit in an
      advancement text. */
  lemma AdvancementTextSteps(p: seq<Byte>, player: seq<Byte>, c: seq<Byte>, name: seq<Byte>)
    requires PlayerName(player) && |c| > 0 && c[0] == SPACE
    requires StartsWith(p, AdvancementText(player, c, name))
    ensures Run(p, NotWhitespace) == |player| && p[..|player|] == player
    ensures StartsWith(p[|player|..], c)
    ensures StartsWith(p[|player| + |c|..], [LBRACKET] + name + [RBRACKET])
  {
    var r := |player|;
    var tail := [LBRACKET] + name + [RBRACKET];
    StartsWithSplit(p, player + c, tail);
    StartsWithSplit(p, player, c);
    PlayerRun(p, player, c);
  }

  /** A player name followed by a connector ends the run of non-whitespace. */
  lemma PlayerRun(p: seq<Byte>, player: seq<Byte>, c: seq<Byte>)
    requires PlayerName(player) && |c| > 0 && IsAsciiWhitespace(c[0])
    requires StartsWith(p, player) && StartsWith(p[|player|..], c)
    ensures Run(p, NotWhitespace) == |player|
  {
    var r := |player|;
    forall i | 0 <= i < r ensures NotWhitespace(p[i]) {
      assert p[i] == p[..r][i];
    }
    assert p[r] == p[r..][..|c|][0];
    RunIs(p, NotWhitespace, r);
  }

  // ------------------------------------------------------------- generic

  /** One or more bytes: the whole payload. */
  function ParseGeneric(p: seq<Byte>): (r: Option<(Partial, nat)>)
    ensures r.Some? <==> |p| >= 1
    ensures r.Some? ==> r.value == (Generic(p), |p|)
  {
    if |p| == 0 then None else Some((Generic(p), |p|))
  }
}
