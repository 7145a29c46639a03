# mcglue log-line classifier, modelled in Dafny

mcglue relays a Minecraft server's console to Discord. Its core is a
classifier that turns one line of the server's standard output into a typed
event. Each line starts with a prefix `[HH:MM:SS] [<logger name>/<LEVEL>]: `.
The rest of the line, the payload, is read by the first of six grammars that
succeeds, tried in this order: chat, join, leave, advancement, death and
generic. The first five only run for the `Server thread` logger at `INFO`.

Death messages are matched against a table of templates. The table is built
once from the game's localization file: every `  "death.<key>": "<template>"`
line whose template mentions the victim placeholder `%1$s` becomes a row. A
row is a literal prefix and then three (slot, literal) steps. The slots are
the placeholders, sorted by where they first occur.

A second, smaller piece cuts the console text the relay has buffered into
messages of at most 2000 characters.

The project is organised as follows.

- `bytes.dfy` (`Bytes`) holds the byte type, `Option`, and the `Checked`
  outcome used for code that may panic. It also defines prefix tests,
  maximal runs (`filter(..).repeated()`), first and last occurrence searches
  (`find`, `rfind`) and `filter_map`.
- `prefix.dfy` (`LinePrefix`) models the time, level and logger parsers, the
  `Display` of a time, and the whole line prefix.
- `grammars.dfy` (`Grammars`) models the chat, join, leave, advancement and
  generic payload grammars.
- `death_table.dfy` (`DeathTable`) models the death-template builder. It has
  a pure specification (`Entry`, `Table`) and the imperative builder
  (`InsertSlots`, `BuildRow`, `BuildEntry`, `BuildTable`), which is proved equal to it.
- `death_match.dfy` (`DeathMatch`) models the death matcher. It has two
  versions:
  - the as-written one, which can panic;
  - the corrected one used by the line parser.

  It also has the imperative matcher (`TakeComponent`, `TryTemplate`,
  `FindDeath`), which is proved equal to the corrected specification.
- `line.dfy` (`Line`) models the guarded ordered choice, the time and logger
  guard, and the top-level line parse with its span, its `Unknown` fallback
  and its parse error.
- `console.dfy` (`Console`) models the console chunker: the cutting loop
  (`Split`) proved against `Pieces`, and the `ConsoleBuffer` class that
  collects and flushes the text.

### How the library behaviour is modelled

- `parse` must consume the whole input.
- `choice`/`or` commit to the first alternative that succeeds. They do not
  backtrack when later input is left over. So a payload grammar that
  succeeds without reaching the end of the line makes the whole line a parse
  error (`ParseError`), which the ingester logs and drops. The line does not
  become `Generic`.
- `repeated()` never gives back what it took.
- `just(..).lazy()` is a prefix test.
- `text::keyword` reads a maximal ASCII identifier and compares it with the
  keyword.

### Behaviour worth noting

- **The space after the chat marker.** The chat grammar requires a space
  after the `[Not Secure]` marker position, even when the marker is absent
  (src/parsing.rs:120-125). So `<Bob> hi` is not chat, but ` <Bob> hi` is.
- **What `Unknown` holds.** When the prefix fails, or no payload grammar
  succeeds, `Unknown` holds the entire line with span `[0, |line|)`. It does
  not hold only the bytes after the prefix.
- **Templates without a victim.** A localization entry whose template has no
  `%1$s` is dropped, even though a template may in general hold zero to
  three placeholders.
- **The entry separator.** The separator that splits an entry is the three
  bytes `: "`.

## Model

| member | source | states |
|---|---|---|
| LinePrefix.DigitPair | src/parsing.rs:409 | two ASCII digits give `10*d1+d2`, which is below 100 |
| LinePrefix.TimeGrammar | src/parsing.rs:406-418 | the time parser accepts `b` exactly when it starts with the `{:02}` rendering of a time whose fields are all below 100, and it consumes those 8 bytes |
| LinePrefix.TimeRoundTrip | src/parsing.rs:395-418 | `Display` of a two-digit time is 8 bytes, and parsing it (followed by anything) gives back the same time |
| LinePrefix.ParseTime | src/parsing.rs:406-418 | an accepted time takes exactly 8 bytes and every field is below 100 |
| LinePrefix.Padded | src/parsing.rs:395-402 | `{:02}` of a `u8` is two ASCII digits below 100 and three from 100 on; two digits read back as the value |
| LinePrefix.FormatTime | src/parsing.rs:395-402 | `Display` writes 8 to 11 bytes; for two-digit fields exactly 8, with `:` at indices 2 and 5 |
| LinePrefix.ParseLevel | src/parsing.rs:467-477 | a level read from the input is a keyword the input starts with, and exactly that keyword is consumed |
| LinePrefix.LevelGrammar | src/parsing.rs:467-477 | a level is read exactly when its upper-case keyword starts the input and is not followed by another identifier byte (so `INFOX` and `info` are refused) |
| LinePrefix.ParseLogger | src/parsing.rs:433-447 | the logger parser consumes no more than its input |
| LinePrefix.LoggerGrammar | src/parsing.rs:433-447 | the logger parser accepts exactly `[` name `/` LEVEL `]` with a name free of `/` (possibly empty), and consumes exactly that tag |
| LinePrefix.LoggerParsed | src/parsing.rs:433-447 | whatever the logger parser returns has a name without `/` and is the tag the input starts with |
| LinePrefix.LoggerAccepted | src/parsing.rs:433-447 | every tag whose name has no `/` is read back as its logger |
| LinePrefix.ParsePrefix | src/parsing.rs:281-288 | the prefix parser consumes no more than the line |
| LinePrefix.PrefixGrammar | src/parsing.rs:281-288 | the prefix is accepted exactly when the line starts with `[time] [name/LEVEL]: ` for a two-digit time and a name free of `/`, and then exactly those bytes are consumed |
| LinePrefix.PrefixParsed | src/parsing.rs:281-288 | the prefix parser's result is the prefix text the line starts with |
| LinePrefix.PrefixAccepted | src/parsing.rs:281-288 | every well-formed prefix text is read back as its time and logger |
| Grammars.AngleSender | src/parsing.rs:127-132 | a `<name>` sender consumes no more than its input |
| Grammars.BracketSender | src/parsing.rs:133-138 | a `[name]` sender consumes no more than its input |
| Grammars.ParseSender | src/parsing.rs:126-139 | the sender choice consumes no more than its input |
| Grammars.AngleSenderShape | src/parsing.rs:127-132 | an angle sender is a non-empty name free of `>`, returned without its brackets, which are consumed |
| Grammars.BracketSenderShape | src/parsing.rs:133-138 | a bracket sender is `[`, a non-empty text free of `]`, then `]`, and it is returned with its brackets |
| Grammars.AngleSenderAccepted | src/parsing.rs:126-139 | every `<name>` with a name free of `>` is read as that sender |
| Grammars.BracketSenderAccepted | src/parsing.rs:126-139 | every `[name]` with a name free of `]` is read as that sender, brackets kept |
| Grammars.ParseChat | src/parsing.rs:120-148 | a chat payload is consumed to its end |
| Grammars.ChatParsed | src/parsing.rs:120-148 | a parsed chat is the marker (present exactly when `secure` is false), a required space, the sender in one of its two forms, a space and a non-empty message that runs to the end |
| Grammars.ChatAccepted | src/parsing.rs:120-148 | every payload of that shape is read as that chat, to its end |
| Grammars.PlayerThen | src/parsing.rs:113-118 | a non-whitespace run followed by a literal consumes no more than the input |
| Grammars.PlayerThenShape | src/parsing.rs:113-161 | for a literal starting with whitespace, the grammar succeeds exactly on a non-empty, maximal non-whitespace player followed by the literal; it does not backtrack into the run |
| Grammars.ParseJoin | src/parsing.rs:151-155 | a join consumes no more than the payload |
| Grammars.ParseLeave | src/parsing.rs:157-161 | a leave consumes no more than the payload |
| Grammars.Connector | src/parsing.rs:164-168 | the advancement connector choice consumes no more than its input |
| Grammars.ConnectorIs | src/parsing.rs:164-168 | each of the three connectors is recognised when the input starts with it |
| Grammars.ConnectorFound | src/parsing.rs:164-168 | a recognised connector is one of the three, and the input starts with it |
| Grammars.BracketedName | src/parsing.rs:169-176 | the bracketed advancement name consumes no more than its input |
| Grammars.BracketedNameParsed | src/parsing.rs:169-176 | the name is non-empty, free of `]`, and returned without its brackets |
| Grammars.BracketedNameAccepted | src/parsing.rs:169-176 | every `[name]` with a non-empty name free of `]` is read as that name |
| Grammars.ParseAdvancement | src/parsing.rs:163-182 | an advancement consumes no more than the payload |
| Grammars.AdvancementParsed | src/parsing.rs:163-182 | a parsed advancement is a player name, one of the three connectors and `[name]`, exactly as many bytes as were consumed |
| Grammars.AdvancementAccepted | src/parsing.rs:163-182 | every player, connector and bracketed name in sequence is read as that advancement |
| Grammars.ParseGeneric | src/parsing.rs:273-277 | the generic grammar succeeds exactly on a non-empty payload and keeps all of it |
| Bytes.Run | src/parsing.rs:113-118 | a run is the longest prefix whose bytes all pass the filter |
| Bytes.Find | src/main.rs:253 | `find` gives the first occurrence, or none when there is none |
| Bytes.FindFrom | src/parsing.rs:214-221 | the search from index `k` gives the first occurrence of the literal at `k` or later, or none when there is none |
| Bytes.FilterMap | src/main.rs:248-323 | `filter_map(..).collect()` keeps no more values than it is given |
| Bytes.LastIndex | src/main.rs:251 | `rfind` of a byte gives its last occurrence, or none |
| Bytes.FilterMapMembers | src/main.rs:248-323 | a value is collected exactly when some input maps to it |
| DeathTable.Token | src/main.rs:253-268 | each present kind stands for a 4-byte placeholder starting with `%`; `Empty` stands for nothing |
| DeathTable.TemplateTextAsWritten | src/main.rs:249-251 | the builder's text extraction panics exactly on a death entry with a separator but no quote after it |
| DeathTable.TemplateText | src/main.rs:249-251 | a template text is only cut from a death entry that has a separator |
| DeathTable.TemplateTextAgrees | src/main.rs:249-251 | wherever the as-written extraction does not panic, the corrected one gives the same result; where it panics, the corrected one skips the line |
| DeathTable.TemplateTextAccepted | src/main.rs:249-251 | a death entry whose text after the first separator is `s`, a quote, and then no quote gives exactly `s` |
| DeathTable.TemplateTextDefined | src/main.rs:249-251 | a template text is cut exactly from a death entry with a separator and a quote somewhere after the first separator |
| DeathTable.TemplateTextShape | src/main.rs:249-251 | the template text is what follows the first separator up to the last quote of the line |
| DeathTable.UnclosedEntryPanics | src/main.rs:251 | the entry `  "death.a": "b` makes the as-written extraction panic and is skipped by the corrected one |
| DeathTable.PlaceholdersApart | src/main.rs:253-268 | occurrences of two different placeholders are at least 4 bytes apart |
| DeathTable.InsertSlots | src/main.rs:255-288 | the nested swaps leave `first/second/third` as the present placeholders in order of position, padded with `Empty` at the text's length |
| DeathTable.BuildRow | src/main.rs:253-314 | once the victim placeholder is found, the slot swaps and the three guarded slices give exactly the row `Row` specifies for that text |
| DeathTable.Row | src/main.rs:290-315 | the prefix of a row is the start of its template text |
| DeathTable.Entry | src/main.rs:248-322 | a line gives a row exactly when it has a template text and that text holds the victim placeholder |
| DeathTable.EntryAccepted | src/main.rs:248-322 | such a line gives the row of its text at the victim's first occurrence, and that row renders back to the text |
| DeathTable.BuildEntry | src/main.rs:248-318 | one localization line gives exactly the row `Entry` specifies |
| DeathTable.Insert | src/main.rs:255-288 | insertion adds exactly one slot and keeps the others |
| DeathTable.PlacedApart | src/main.rs:255-288 | the placed slots are the first occurrences of the present placeholders, strictly increasing and at least 4 apart |
| DeathTable.PaddedArranged | src/main.rs:255-288 | after padding, every `Empty` slot is at the text's length, after all present slots |
| DeathTable.RowRenders | src/main.rs:290-315 | putting the placeholders back into a row gives back its template text |
| DeathTable.EntryRoundTrip | src/main.rs:290-315 | prefix, token of kind 1, infix 1, token of kind 2, infix 2, token of kind 3 and suffix spell out the template text exactly |
| DeathTable.EntryWellFormed | src/main.rs:255-315 | a built row has a victim, no kind twice, `Empty` slots only at the end, and an empty literal after every `Empty` slot |
| DeathTable.EntryPositions | src/main.rs:253-288 | each present slot of a built row sits where that placeholder first occurs in the template text |
| DeathTable.EntryKinds | src/main.rs:253-268 | a kind is in the row exactly when its placeholder occurs in the template text |
| DeathTable.Table | src/main.rs:248-323 | the table has no more rows than there are lines |
| DeathTable.TableKeeps | src/main.rs:248-323 | every line that gives a row has that row in the table |
| DeathTable.TableOrder | src/main.rs:247-323 | the table holds the rows of the lines in line order |
| DeathTable.TableRows | src/main.rs:248-323 | every row of the table comes from some line and is well formed |
| DeathTable.BuildTable | src/main.rs:242-323 | the `filter_map` loop builds exactly `Table(lines)` |
| DeathMatch.Record | src/parsing.rs:227-238 | a capture sets the field of its kind and leaves the other two alone |
| DeathMatch.StepsAsWritten | src/parsing.rs:205-254 | the as-written steps can panic only at a capturing slot with a literal after it, and with no literal left they succeed |
| DeathMatch.MatchTemplateAsWritten | src/parsing.rs:187-257 | a panic needs the template's prefix to start the payload and a capturing slot with a literal after it |
| DeathMatch.MatchTableAsWritten | src/parsing.rs:186-263 | a match or a panic of the as-written scan is the outcome of some template of the table |
| DeathMatch.StepAsWritten | src/parsing.rs:205-253 | one step of the matcher as written panics exactly when a capturing slot with a non-empty literal meets an empty remainder |
| DeathMatch.StepRecovers | src/parsing.rs:205-253 | without the panic, the as-written step and the corrected step agree |
| DeathMatch.StepsRecover | src/parsing.rs:205-254 | the three steps, as written and corrected, agree except where the former panics |
| DeathMatch.MatchTemplateRecovers | src/parsing.rs:187-257 | one template, as written and corrected, agree except where the former panics |
| DeathMatch.MatchTableAgrees | src/parsing.rs:184-264 | wherever the as-written scan does not panic, it finds what the corrected scan finds |
| DeathMatch.EmptyPayloadPanics | src/parsing.rs:215-217 | the well-formed template `%1$s died` makes the as-written matcher panic on an empty payload, while the corrected matcher fails |
| DeathMatch.Step | src/parsing.rs:206-253 | a step never grows the remainder, an `Empty` slot records nothing, and a slot with no literal after it never fails |
| DeathMatch.Steps | src/parsing.rs:205-254 | with no literal left, the remaining steps cannot fail |
| DeathMatch.MatchTemplate | src/parsing.rs:187-257 | a template matches only a payload its prefix starts, and one with no literal after the prefix matches every such payload |
| DeathMatch.MatchTable | src/parsing.rs:186-263 | a death match is the match of some template of the table |
| DeathMatch.StepAccepted | src/parsing.rs:206-253 | every split of the remainder into capture, literal and rest that obeys the step's rule (before a literal, a non-empty capture after which the literal occurs at no earlier index of at least 1; the whole rest when no literal follows; nothing for `Empty`) is what the step returns |
| DeathMatch.StepFails | src/parsing.rs:206-253 | a step with no literal after it never fails; an `Empty` slot fails exactly when its literal does not start the remainder; a capturing slot fails exactly when its literal occurs at no index of at least 1 |
| DeathMatch.StepShape | src/parsing.rs:211-253 | a step splits the remainder into the capture, the literal and the rest; a capture before a non-empty literal is non-empty and shortest, so the literal occurs at no earlier index of at least 1; a capture with no literal after it takes the whole remainder |
| DeathMatch.TemplateAccepted | src/parsing.rs:187-257 | every payload that reads as a well-formed template with fields `f` (prefix, then the three steps, the missing fields empty) is matched with `f` |
| DeathMatch.TemplateParsed | src/parsing.rs:187-257 | conversely, every match of a well-formed template reads the payload in that way |
| DeathMatch.SlainBy | src/parsing.rs:187-257 | `%1$s was slain by %2$s using %3$s` is well formed, and `Bob was slain by Zombie using Sword` gives victim `Bob`, attacker `Zombie` and weapon `Sword` |
| DeathMatch.MatchFills | src/parsing.rs:187-257 | a matching template, filled with the captured fields, starts the payload; the slots the template lacks stay empty, and trailing bytes are allowed |
| DeathMatch.MatchTableFills | src/parsing.rs:184-264 | a death match comes from some row of the table, whose filled text starts the payload |
| DeathMatch.MatchTableFirst | src/parsing.rs:186-258 | the scan returns `f` exactly when some template matches with `f` and every earlier template fails |
| DeathMatch.MatchTableNone | src/parsing.rs:186-263 | the death grammar fails exactly when every template fails |
| DeathMatch.TakeComponent | src/parsing.rs:205-253 | the `while component_len` loop and the literal check compute the corrected step |
| DeathMatch.TryTemplate | src/parsing.rs:187-257 | the prefix check and the `for` over three components compute the template match |
| DeathMatch.FindDeath | src/parsing.rs:184-264 | the labelled scan over the table returns the first template that matches |
| Line.ParseDeath | src/parsing.rs:256-271 | a death match consumes the whole payload |
| Line.Attempt | src/parsing.rs:149-277 | each alternative consumes no more than the payload |
| Line.Choice | src/parsing.rs:279 | the payload choice consumes no more than the payload |
| Line.ChoiceFirst | src/parsing.rs:279 | the choice returns `r` exactly when some alternative the logger admits gives `r` and every earlier one is barred by the guard or fails |
| Line.ChoiceUnguarded | src/parsing.rs:106-110 | for any logger other than `Server thread` at `INFO`, the choice is the generic grammar |
| Line.UnknownLine | src/parsing.rs:338-342 | a line is `Unknown` (the entire line, span `[0, len)`) exactly when the prefix fails or no payload grammar succeeds |
| Line.ParsedLine | src/parsing.rs:281-342 | any other parsed line starts with its prefix text, carries its time, and has a span running from the end of the prefix to the end of the line |
| Line.Build | src/parsing.rs:289-337 | every event built from a payload is a known event stamped with the line's time; it is `Generic`, keeping the logger, exactly when the payload was |
| Line.ParseLine | src/parsing.rs:281-342 | a parsed line's span ends at the end of the line; an `Unknown` line holds the whole line with span `[0, len)` |
| Line.OtherLoggerGeneric | src/parsing.rs:106-110 | under any other logger, a non-empty payload is `Generic`, even when it is shaped like chat |
| Line.PrefixThen | src/parsing.rs:281-288 | a prefix text followed by any payload reads back as its time and logger, with the payload after it |
| Line.LineFromParts | src/parsing.rs:281-342 | a prefix and a winning payload that reaches the end of the line give that event and its span |
| Line.LineError | src/main.rs:345-354 | a winning payload that stops short of the end of the line makes the parse an error |
| Line.NotChat | src/parsing.rs:120-125 | a payload that starts with a player name, a space and then a byte other than `S` is never chat; that second byte rules out a name such as `[Not` whose space begins ` Secure]` |
| Line.JoinAccepted | src/parsing.rs:120-155 | `player joined the game` is not chat, and it is a join of that player |
| Line.JoinPayload | src/parsing.rs:279 | under `Server thread/INFO`, `player joined the game...` wins as a join |
| Line.JoinLine | src/parsing.rs:151-155 | a `Server thread/INFO` join line is a `Join` of that player with the payload as its span |
| Line.JoinTrailingError | src/main.rs:345-354 | a join line with bytes after ` joined the game` is a parse error, not `Generic` |
| Line.ServerThreadName | src/parsing.rs:106-110 | the guarded logger's name holds no `/` |
| Line.ServerPrefixThen | src/parsing.rs:281-288 | a `Server thread/INFO` prefix text followed by any payload reads back as its time and logger |
| Line.DeathLine | src/parsing.rs:184-271 | a `Death` line runs to its end, and its fields are a match of some table row whose filled text starts the payload |
| Line.ChoiceDeath | src/parsing.rs:279 | a death result of the choice is the table's match over the whole payload |
| Console.LastNewlineBelow | src/main.rs:110-116 | the search gives the highest line break below the bound, or none |
| Console.Cut | src/main.rs:109-151 | a remainder over 2000 characters is cut at its highest line break below index 2000, or at 2000 when it has none there |
| Console.FindCut | src/main.rs:110-116 | the reverse scan computes the cut |
| Console.Split | src/main.rs:108-151 | the cutting loop sends exactly the messages `Pieces` describes, and stops at a cut of index 0 |
| Console.Pieces | src/main.rs:108-151 | a flush stalls exactly when its remainder is over 2000 characters, and the remainder is no longer than the buffer |
| Console.PiecesJoin | src/main.rs:108-161 | the messages sent in the loop, followed by the final remainder, spell out the buffer |
| Console.PiecesBounds | src/main.rs:108-151 | every loop message holds 1 to 2000 characters, the final one at most 2000; a stall is a remainder over 2000 whose only line break in its first 2000 characters is the first one |
| Console.PiecesAreCuts | src/main.rs:108-151 | message `i` is the cut of what the earlier messages left, taken while more than 2000 characters remained, so the cut line break starts the next message |
| Console.NoNewlineFixedChunks | src/main.rs:134-150 | text without line breaks goes out in messages of exactly 2000 characters and never stalls |
| Console.ConsoleBuffer.constructor | src/main.rs:102 | the buffer starts empty |
| Console.ConsoleBuffer.Push | src/main.rs:168-169 | an arriving message is appended to the buffer |
| Console.ConsoleBuffer.Flush | src/main.rs:104-164 | a flush sends the messages `Pieces` gives for the buffer and then empties it; after a stall the buffer is never reached again and stays as it was |

## Left out

- Fetching the localization file over HTTP (src/main.rs:243-246) is left
  out. Its lines are an input sequence of byte strings, and the split on
  `\n` is assumed done.
- The write-once `OnceLock` cells (src/main.rs:27, 325; src/parsing.rs:186)
  are left out. The table is passed to the line parser as a parameter.
- Process spawning, stdin/stdout piping, the command channel, signal
  handling, the Discord webhook and embed rendering, the bot framework, the
  `tellraw` formatting, the NBT teleport files, the crash-report scan and
  the broadcast channel are all left out. They are I/O or foreign libraries.
- The ingester's `read_until`, the newline strip `buf[..n - 1]`, and the
  `eprintln!` of errors (src/main.rs:331-354) frame I/O and are left out. A
  line parse error is the `ParseError` result.
- Lossy UTF-8 display (`ShowLossyStr`) and the `Display` of `Logger` and
  `LogLevel` are left out. Events hold the raw byte slices.
- chumsky's `Rich` error messages are left out. Failure is `None` or
  `ParseError`.
- `Log::List` is left out, because its grammar is not part of the modelled
  parser.
- The `[Server]` avatar comparison (src/main.rs:364) is left out, because it
  belongs to the webhook rendering.
- The console task's 100 ms timer, `try_recv` and `yield_now` scheduling
  (src/main.rs:101-105, 168-174) are left out. `Push` and `Flush` are the
  two things it does to the buffer.
- Console.Split: webhook sends are taken to always succeed, so the early
  `break` after a failed send (src/main.rs:128-130, 146-148) is not
  modelled. At a cut of index 0 the source would then send empty messages
  forever. The model stops there and reports `stalled`, instead of running
  forever.
- Console.ConsoleBuffer.Flush: after a stall, the source never returns to
  clear the buffer. The model leaves the buffer as it was.
- The characters of the console text are Unicode scalar values
  (`chars()`). Counting them as `seq<char>` elements matches this, and no
  encoding is modelled.
- Time fields are `u8`. Parsed fields are below 100 and cannot overflow.
  `Display` of a value of 100 or more (three digits) is modelled, but such a
  time is never parsed back.

## Findings

| source | as written | input that shows it | evidently intended | confidence | as-written member | corrected member |
|---|---|---|---|---|---|---|
| src/parsing.rs:215-217 | a capturing slot before a non-empty literal starts at `component_len = 1` and evaluates `slice.len() - component_len` and `slice[component_len..]`. When nothing is left this underflows or slices out of range, and the ingester task panics | the line `[12:00:00] [Server thread/INFO]: ` (empty payload) with a table whose first row is `%1$s died`: chat, join, leave and advancement fail, and the death matcher reaches the victim slot with an empty remainder | the template fails and the scan moves on to the next one (the line then becomes `Unknown`) | not executed; the panic follows from the code | DeathMatch.StepAsWritten, DeathMatch.EmptyPayloadPanics | DeathMatch.TakeComponent, DeathMatch.StepShape |
| src/main.rs:251 | the template text is cut at `rfind(b"\"").unwrap()`, which panics on an entry line with no quote after `: "` and stops the relay before startup completes | the localization line `  "death.a": "b` | such a line is skipped like any other line that is not an entry | not executed; the published localization file has no such line | DeathTable.TemplateTextAsWritten, DeathTable.UnclosedEntryPanics | DeathTable.TemplateText, DeathTable.TemplateTextShape |
