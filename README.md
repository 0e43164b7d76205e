# Rendering of bunyan log records

This project models how the bunyan pretty-printer renders one decoded log record
(`LogRecord::format` in `src/record.rs`):

- the header `[time] LEVEL (pid): message`;
- the five-character level label, or `LVL<code>` for an unknown code;
- the extra fields. Short values go into an inline group ` (key=value,...)` on the
  message's line. Long or multi-line values go into detail blocks, indented by four
  spaces and separated by `--` lines.

Module `Text` (`text.dfy`) holds the few pieces of Rust's standard library and of the
`itertools` crate that the renderer relies on. Text is kept as its UTF-8 bytes, so
lengths are byte lengths, as `String::len` measures them. It covers:

- decimal formatting of integers;
- `Itertools::join`, from the `itertools` crate;
- `str::split`;
- `str::lines`.

Module `Record` (`record.dfy`) holds the record, the level label, the routing of extra
fields and the layout of the whole text.

`format_extras` is modelled as a method, `Record.FormatExtras`. It has the source's loop
and its two growing lists, `details` and `extras`. It is proved equal to the pure
function `Record.Extras`, so every lemma about `Extras` is a statement about the loop.

These things are parameters of the model rather than code in it:

- colouring: a function from a style and a text to the styled text; `Plain` is colour
  turned off;
- the pretty JSON serialiser;
- the table from level codes to named levels.

Where a property depends on a parameter, its lemma says what it assumes. An example is
`KeepsLines`: styling never adds a line feed.

The repository's own test expectations (`tests/all/formatting.rs:11` and `:22`) show a
different header, `[time]  INFO: myservice/123 on example.com: My message`. The code in
`src/record.rs:45-54` writes `[time]  INFO (123): My message`, with no name and no
hostname. The model follows the code.

## Model

| member | source | states |
|---|---|---|
| Text.DigitsValue | src/record.rs:51 | definition: the number a string of decimal digits denotes, the reading side of `Decimal`; its properties are in `Text.DecimalRoundTrip` |
| Text.Join | src/record.rs:103 | definition of `Itertools::join`, used at lines 103, 108 and 130; its properties are in `Text.JoinSnoc`, `Text.JoinAvoids`, `Text.JoinSplit`, `Text.SplitJoin` and `Text.JoinPrefixed` |
| Record.FormatLevel | src/record.rs:59-74 | definition of `format_level`; its properties are in `Record.LabelShape`, `Record.NamedLevelRendering` and `Record.UnknownLevelRendering` |
| Record.LabelLevel | src/record.rs:62-69 | definition: the reading side of the level labels; its properties are in `Record.LabelLevelInverse` |
| Record.Stringify | src/record.rs:80-90 | definition of the text of a value; its properties are in `Record.StringifyQuoting`, `Record.StringRouting` and `Record.QuotedFortyNineIsDetail` |
| Record.InlineEntries | src/record.rs:79-101 | definition: the inline entries of the fields in field order, the `extras` list of the loop; its properties are in the `Record.Routing...` lemmas |
| Record.DetailBlocks | src/record.rs:79-101 | definition: the detail blocks of the fields in field order, the `details` list of the loop; its properties are in the `Record.Routing...` lemmas and `Record.DetailBlocksIndented` |
| Record.InlineGroup | src/record.rs:107-111 | definition of `formatted_extras`; its properties are in `Record.InlineGroupOneLine` |
| Record.DetailGroup | src/record.rs:102-106 | definition of `formatted_details`; its properties are in `Record.DetailGroupLines` |
| Record.Extras | src/record.rs:76-113 | definition: the text `format_extras` returns; `Record.FormatExtras` is proved equal to it, and its properties are in `Record.ExtrasLines`, `Record.ExtrasEmpty`, `Record.ExtrasSingleInline` and `Record.ExtrasSingleDetail` |
| Record.Indent | src/record.rs:129-131 | definition of `indent`; its properties are in `Record.IndentLines` |
| Record.LogRecord.Lead | src/record.rs:45-52 | definition: the header of the record; its properties are in `Record.HeaderReadBack`, `Record.HeaderLevelReadBack` and `Record.LeadOneLine` |
| Record.LogRecord.Format | src/record.rs:43-56 | definition of `LogRecord::format`; its properties are in `Record.RecordLines`, `Record.PidDefaultsToZero` and `Record.FormattingExample` |
| Text.Decimal | src/record.rs:51 | a number is written as at least one byte, every byte a decimal digit |
| Text.DecimalRoundTrip | src/record.rs:51 | reading back the digits written for a number gives that number |
| Text.DecimalNoLeadingZero | src/record.rs:72 | the written digits start with 0 exactly when the number is 0 |
| Text.JoinSnoc | src/record.rs:103 | joining one more element appends the separator and that element |
| Text.JoinAvoids | src/record.rs:103 | a byte absent from the separator and from every element is absent from the join |
| Text.Split | src/record.rs:130 | splitting always yields at least one piece |
| Text.JoinSplit | src/record.rs:130 | joining the pieces with the byte they were cut at gives the text back |
| Text.SplitJoin | src/record.rs:130 | cutting a join at its separator gives the elements back, when no element holds the separator |
| Text.SplitAt | src/record.rs:130 | a separator in the middle of a text ends the pieces of what precedes it and starts those of what follows |
| Text.Lines | src/record.rs:130 | no line holds a line feed |
| Text.LinesJoin | src/record.rs:130 | without carriage returns, the lines joined by line feeds are the text less one final line feed |
| Text.JoinPrefixed | src/record.rs:130 | a prefix before a join whose separator is a line feed and that prefix equals the join, by line feeds, of the elements each with the prefix in front |
| Record.LabelShape | src/record.rs:62-69 | every label is exactly five bytes, and only WARN and INFO are padded with a leading space |
| Record.LabelLevelInverse | src/record.rs:63-68 | a text names a level if and only if it is that level's label, so the six labels are distinct |
| Record.NamedLevelRendering | src/record.rs:60-70 | a code with a named level shows that level's five-byte label, styled in that level's style, and reading the label back gives the level |
| Record.UnknownLevelRendering | src/record.rs:71-73 | a code with no named level shows unstyled `LVL` and the code's digits, under any colouring; the digits are exactly the code's decimal digits, with no leading zero unless the code is 0, they read back as the code, and the text is no level's label |
| Record.FormatExtras | src/record.rs:76-113 | the loop with its two accumulators computes exactly `Extras` of the extra fields |
| Record.StringifyQuoting | src/record.rs:80-90 | a string is quoted if and only if it is empty or holds a space, and is shown as-is otherwise; any other value is pretty-printed |
| Record.RouteOne | src/record.rs:92-100 | each field goes to exactly one group, and to the detail blocks if and only if its text holds a line feed or is over fifty bytes |
| Record.RoutingSingle | src/record.rs:79-101 | a single field routes as that field does |
| Record.RoutingAppend | src/record.rs:79-101 | both groups keep field order: the groups of a concatenation are the concatenations of the groups |
| Record.RoutingCount | src/record.rs:79-101 | no field is dropped or duplicated: the two groups together have one element per field |
| Record.RoutingPosition | src/record.rs:79-101 | field i's entry or block sits in its group right after those of the fields before it |
| Record.StringRouting | src/record.rs:83-92 | a string without line feeds is inline if and only if its shown length, quotes included, is at most fifty bytes |
| Record.DetailUsesRawString | src/record.rs:93-94 | a string in a detail block is shown raw, without the quotes of its text, and is not also inline |
| Record.FiftyIsInline | src/record.rs:92-99 | boundary: a fifty-byte string without spaces or line feeds is inline and unquoted |
| Record.FiftyOneIsDetail | src/record.rs:92-94 | boundary: a fifty-one-byte string without spaces is a detail block and not inline |
| Record.QuotedFortyNineIsDetail | src/record.rs:83-94 | a forty-nine-byte string with a space is fifty-one bytes once quoted, so it becomes a detail block, shown raw |
| Record.ExtrasEmpty | src/record.rs:102-112 | no extra fields leave a single line feed |
| Record.ExtrasSingleInline | src/record.rs:99-112 | one short field gives ` (key=text)` followed by a line feed |
| Record.ExtrasSingleDetail | src/record.rs:94-112 | one long or multi-line field gives a line feed, its block and a final line feed |
| Record.CountExample | src/record.rs:76-113 | with colour off, the field `count: 5` is shown as ` (count=5)` and a line feed |
| Record.IndentLines | src/record.rs:129-131 | the lines of an indented text are the original lines, each with four spaces in front (four spaces alone for a text with no lines), and every one starts with four spaces |
| Record.DetailJoinLines | src/record.rs:103 | blocks whose lines are all indented stay so when joined with the `--` separator |
| Record.DetailBlocksIndented | src/record.rs:93-97 | every line of every detail block starts with four spaces |
| Record.InlineEntriesOneLine | src/record.rs:99 | with keys and styling free of line feeds, no inline entry holds a line feed |
| Record.InlineGroupOneLine | src/record.rs:107-111 | under the same conditions the inline group holds no line feed |
| Record.DetailGroupLines | src/record.rs:102-106 | the detail group is empty or ends with a line feed, and every line before its end starts with four spaces |
| Record.ExtrasLines | src/record.rs:102-112 | with keys and styling free of line feeds, the text after the message is the inline group on the current line, then indented detail lines, then a final line feed |
| Record.PidDefaultsToZero | src/record.rs:51 | a record without a pid is shown exactly as one with pid 0 |
| Record.HeaderReadBack | src/record.rs:45-52 | with colour off and for any level code, with n the length of the level text, timestamp, level text, pid and message sit at fixed positions of the header; the pid bytes are exactly its decimal digits, and timestamp, pid and message read back as the record's values |
| Record.HeaderLevelReadBack | src/record.rs:60-73 | with colour off, the level text of the header is five bytes that read back as the named level when the code has a name, and otherwise `LVL` followed by the code's decimal digits, which read back as the code |
| Record.LeadOneLine | src/record.rs:45-52 | with timestamp, message and styling free of line feeds, the header holds no line feed |
| Record.RecordLines | src/record.rs:43-56 | a rendered record is a first line holding the header and the inline group, then indented detail lines, then a final line feed |
| Record.FormattingExample | src/record.rs:43-56 | the record with level 30, pid 123 and message `My message` renders, with colour off, as `[2012-02-08T22:56:52.856Z]  INFO (123): My message` and a line feed |

## Left out

- Timestamps are taken as already-rendered text. Two things are not modelled: conversion to the local time zone with RFC 3339 formatting in milliseconds (`src/record.rs:47-49`), and the decoding of ISO 8601 strings or millisecond timestamps in `iso8601_or_timestamp` (`src/record.rs:133-160`). Both rest on chrono's calendar and the host's time zone.
- Deserialisation of a record from JSON (`src/record.rs:11-35`) is not modelled; the model starts from the decoded record.
- `json_to_indented_string` (`src/record.rs:118-127`) is the parameter `Pretty`. serde_json's serialiser, and the layout it writes, are not part of this model.
- Colouring is the parameter `Paint`. The ANSI escape sequences of the `colored` crate, and its global switch that turns colour on or off, are not part of this model.
- `NamedLogLevel::try_from` is defined outside `src/record.rs` and is not part of this model. It is the parameter `LevelTable`.
- The `Format` argument of `LogRecord::format` is unused by the code, so it does not appear.
- The record's `v`, `name` and `hostname` are carried but never shown, because the code does not print them.
- Order of extra fields: the model takes the fields in the order the map yields them. Whether that is insertion or key order depends on serde_json's `preserve_order` feature, which is not visible here.
- Text.Lines follows the current behaviour of `str::lines`: a carriage return is dropped only before a line feed. Older Rust versions also dropped a lone carriage return at the end of the text.
- Bytes are not checked to be valid UTF-8. Searching for a space or a line feed byte by byte is exact for UTF-8, because those bytes never occur inside a multi-byte character.
- Record.HeaderReadBack: stated for colour off only, because the positions in styled text depend on the escape sequences of the colour library, which are not modelled.
- Record.RecordLines: assumes that styling adds no line feed (`KeepsLines`) and that the timestamp, message and keys hold none. With a line feed in any of them the first line ends early.
- Record.FormattingExample: takes the level table to map 30 to Info, because that table is not part of this model.
