# Verified model of the football server's core

This project models five parts of the repository in Dafny and proves what they promise:

- the TOML library that configuration is read with: the UTF-8 decoder and block reader, the history ring of the
  buffered reader, the printers and parsers of strings, integers, dates and times, paths, `flatten`, and the table
  definitions of a document (`util/toml.hpp`);
- the framing of messages on a connection, the server's replies, and the way there and back (`net/connection.hpp`,
  `net/message.hpp`, `net/server.hpp`, `net/football_server.hpp`);
- the thread-safe queue, at the granularity of its mutexes (`net/tsqueue.hpp`);
- the storing of seasons and their clubs (`db/mysql.cpp`, `classes/season.hpp`, `net/event_action.cpp`), against tables
  with REPLACE, unique keys and cascading deletes as MySQL defines them and `db/football.sql` declares them;
- the task scheduler (`scanner/scheduler.hpp`, `scanner/task_base.hpp`).

What the code does is first written as functions on values, one module per component. Code that works in place is
modelled as methods and classes whose contracts equate the new state with such a function. The promises are lemmas about
the functions: for all inputs, all runs, or all interleavings. References are independent of the code where there is one:
section 4 of RFC 3629 for UTF-8, TOML v1.0.0 for values, positional value for numerals, a plain cursor for the ring. Tables
and formats that printer and parser share are also pinned from outside, in code points and numbers: escapes, separators,
signs, prefixes, fields, character classes, headers and records (the modules named `...Laws` and the lemmas `...InNumbers`).

Every `.dfy` file is part of the project; `dafny verify dfyconfig.toml` checks all of them.

## What the code does not do

Some promises hold only under a condition, which the lemmas state exactly:

- A printed string is read back exactly when it is well-formed UTF-8 and the printer's branch can express it: a multi-line
  form must not begin with a line feed (the parser drops it), a single-line literal must not contain one, and a multi-line
  literal must not contain three quotes in a row (`StringParser.StringRoundTrip`, `StringText.Survives`). Without a line feed
  every well-formed string survives.
- A path is read back exactly when it has components, none of its keys holds a dot or a bracket, its indices fit, and no
  empty key stands before an index (`Path.PathRoundTrip`).
- Navigating by string and by the path made from the string agree exactly when the string is a path or the root is not
  entered: an unparsable string makes an empty path, which leads to the root (`Path.NavigationAgrees`).
- What a connection delivers agrees with what was sent exactly as long as the size fields tell the length of the bodies
  (`Connection.DeliveredIsPrefixOfSent`). A message whose header announces no body is delivered with the body of an earlier
  one, and echoing it as it is makes the other side take the stale bytes for a header: a run that ends so is given
  (`Connection.StaleBody`, `Connection.StaleEchoBreaksFraming`). A client that sends only messages of the right size therefore
  gets its answers exactly as long as none of them is to a ping without a body sent after a message with one
  (`Conversation.BothWaysInStep`).
- An integer is read as TOML writes it, except exactly where the character before an underscore, or before the end of the
  value, is looked at through a pointer into a block that has been replaced meanwhile (`IntegerText.TakesWhatIsRead`). This
  needs more than 127 characters (`IntegerText.ShortValuesAreRead`); a well-placed underscore is then refused, or a trailing
  one taken (`IntegerText.WellPlacedButRefused`, `IntegerText.MisplacedButTaken`).
- Whether a header or a pair is accepted is told from the statements before it alone (`TableShapes.DocumentsAccepted`). Dotted
  keys go on into tables that headers below them have made (`TableShapes.DotsGoThroughHeaders`), and such a table gets a header
  of its own as long as what is in it passes for tables, inline ones and arrays of those included.
- Values nested deeper than 256 are refused, though TOML sets no limit: a number in brackets is accepted exactly if there
  are fewer than 256 of them (`TableAcceptance.BuildAccepts`, `TableAcceptance.TooManyBrackets`).
- Saving a season touches another one exactly if both have the same championship and year; the result of the save is that
  of the last link only (`SeasonStore.SaveWritesExactlyItsClubs`, `SeasonStore.SaveResult`). Saving a club drops its links in
  every season, and takes away a club of the same name with its links (`SeasonStore.ClubSaveDropsItsLinks`).
- The request to add a club that is not stored succeeds without effect when a linked club has neither name nor country
  (`SeasonStore.NewSeasonClubAddsExactlyTheClub`).
- A task's stored results stay as they were when the new text is empty (`Scheduler.TaskObject.Populate`).

## Model

| member | source | states |
|---|---|---|
| Utf8.DecoderAcceptsExactlyWellFormed | util/toml.hpp:8629-8696 | the table-driven automaton accepts a byte string if and only if it is well-formed by section 4 of RFC 3629, and then yields its scalar values |
| Utf8.DecoderBits | util/toml.hpp:8670-8690 | the decoder's shifts and masks on 32-bit words are the arithmetic the model computes with |
| Utf8.EncoderBits | util/toml.hpp:13556-13577 | the escape encoder's shifts and masks are the arithmetic of Encode |
| Utf8.EncodeThenDecode | util/toml.hpp:13556-13577 | encoding any scalar values gives well-formed bytes with exactly those scalars |
| Utf8.DecodeThenEncode | util/toml.hpp:13556-13577 | encoding the scalars of well-formed bytes gives the bytes back |
| Utf8.DecoderInvertsEncoder | util/toml.hpp:8629-8696 | the automaton run over the encoder's outputs returns the original scalars |
| Utf8.ExamplesOfRfc3629 | util/toml.hpp:13556-13577 | the examples of section 7 of RFC 3629 are encoded as the standard prints them |
| CharClasses.HexToDec | util/toml.hpp:8560-8570 | a hexadecimal digit of either case stands for its place among the digits or ten more than its place among the letters |
| CharClasses.WhiteSpaceInNumbers | util/toml.hpp:8337-8375 | the classes of white space are these code points and no others |
| CharClasses.ClassesInNumbers | util/toml.hpp:8522-8621 | value terminators, controls, digits, bare key characters and delimiters are these code points and no others |
| CharClasses.BlankMask | util/toml.hpp:8343-8363 | the mask over 64 stretches of code points, with the few cases left, tests for exactly the white space beyond ASCII |
| CharClasses.LetterMasks | util/toml.hpp:8379-8393 | the 64-bit masks test for exactly the letters, digits and signs of bare keys, and the hexadecimal digits |
| Utf8Reader.ReferenceIsRfc3629 | util/toml.hpp:8629-8696 | byte-at-a-time decoding accepts exactly the well-formed sources and keeps each scalar's own bytes |
| Utf8Reader.RawBytesAreKept | util/toml.hpp:12485-12505 | the raw bytes of the code points and the pending ones are together the source, none lost |
| Utf8Reader.OverlongIsUnreachable | util/toml.hpp:12506-12511 | the branch for a sequence that still needs input at a count of four is dead |
| Utf8Reader.IsAscii | util/toml.hpp:12092-12126 | the vectorised test over lanes and a rest answers whether all bytes are below 128 |
| Utf8Reader.Reader.CalcPositions | util/toml.hpp:12440-12455 | a block's code points get the line and column of their place in the whole source |
| Utf8Reader.Reader.FastPath | util/toml.hpp:12458-12474 | an ASCII block is what byte-wise decoding makes of it |
| Utf8Reader.Reader.SlowPath | util/toml.hpp:12476-12521 | a block is decoded as the source continues, wherever the boundary splits a sequence |
| Utf8Reader.Reader.ReadNextBlock | util/toml.hpp:12384-12537 | a loaded block keeps the reader in step with the reference; a refused one means the source is malformed |
| Utf8Reader.Reader.ReadNext | util/toml.hpp:12562-12579 | every call returns the reference's next code point with its bytes and position, its end, or its verdict |
| Utf8Reader.PositionsInNumbers | util/toml.hpp:12440-12455 | a code point's line counts the line feeds before it, and its column the code points after the last of them |
| Utf8Reader.MarkInNumbers | util/toml.hpp:12172-12191 | the three bytes of a byte order mark are skipped at the beginning, once, and nothing else is |
| Blocks.BlocksAreTheReaders | util/toml.hpp:12384-12537 | a code point is delivered once exactly the bytes up to its end are read, so the blocks that the model speaks of are the reader's |
| Blocks.PlainBlocks | util/toml.hpp:12458-12474 | ASCII characters fill blocks of thirty-two |
| BufferedReader.Reader.ReadNext | util/toml.hpp:12647-12684 | after any run of reads and legal steps back the next code point is the plain cursor's, across wrap-around and at the end |
| BufferedReader.Reader.StepBack | util/toml.hpp:12686-12699 | a step back returns what the plain cursor has there |
| BufferedReader.StepBackUndoesReads | util/toml.hpp:12686-12699 | stepping back as far as was read leaves the cursor where it was, and is legal exactly within the ring |
| BufferedReader.PlainReading | util/toml.hpp:12647-12684 | reading from the start gives the elements in order and then nothing |
| StringText.TextRoundTrip | util/toml.hpp:16149-16381 | for every text, flags and continuation, the printed string is read back if and only if it survives |
| StringFormatter.PrintString | util/toml.hpp:16149-16381 | the scanning, choosing and escaping loops write exactly the bytes of the specification, for any bytes |
| StringFormatter.ScanAscii | util/toml.hpp:16164-16190 | the flags found by the early-leaving scan of ASCII text describe all of it |
| StringFormatter.ScanUnicode | util/toml.hpp:16192-16240 | the flags found while decoding describe the text, and malformed bytes are noticed |
| StringFormatter.Classify | util/toml.hpp:16157-16240 | either scan leaves flags that describe the whole text, and the permission to write it unescaped |
| StringFormatter.EscapeUnicode | util/toml.hpp:16304-16378 | the decoding escape loop writes short escapes, code point escapes and raw bytes as specified |
| StringFormatter.EscapeAscii | util/toml.hpp:16278-16302 | the plain escape loop writes what the decoding one would write |
| StringParser.ParseBasicString | util/toml.hpp:13456-13694 | the basic-string loop reads what the grammar says, escapes, trimmed line ends and closing quotes included |
| StringParser.ParseLiteralString | util/toml.hpp:13698-13797 | the literal-string loop reads what the grammar says |
| StringParser.ParseString | util/toml.hpp:13801-13841 | the opening delimiters choose the body that is read |
| StringParser.ParseEscape | util/toml.hpp:13478-13585 | after a backslash: a trimmed line end, a short escape or the bytes of a named code point, and nothing else |
| StringParser.ConsumeHexDigits | util/toml.hpp:13528-13551 | four or eight hexadecimal digits add up to their value without wrapping |
| StringParser.StringRoundTrip | util/toml.hpp:16149-16381 | in bytes: printing and parsing gives the string back and leaves the rest, if and only if the string is well-formed and survives |
| StringParser.StringsWithoutLineFeedSurvive | util/toml.hpp:16149-16381 | every well-formed string without a line feed survives any combination of flags |
| StringLaws.EscapesMean | util/toml.hpp:13499-13509 | in one-line and multi-line strings a backslash and 0x62, 0x74, 0x6E, 0x66, 0x72, 0x22 or 0x5C stand for 8, 9, 10, 12, 13, 34 and 92 |
| StringLaws.OtherEscapesFail | util/toml.hpp:13511-13583 | any other character after a backslash, but for u and U and white space in multi-line strings, is an error |
| StringLaws.CodePointsMean | util/toml.hpp:13527-13578 | u and four hexadecimal digits stand for the code point they number, and surrogates are an error |
| StringLaws.LongCodePointsMean | util/toml.hpp:13527-13578 | so do U and eight digits, up to 0x10FFFF |
| StringLaws.ControlsFail | util/toml.hpp:13664-13667 | control characters but the tab are errors, line ends in multi-line strings excepted |
| StringLaws.LineEndsMean | util/toml.hpp:13654-13662 | a line end in a multi-line string is one line feed, with or without a carriage return before it |
| StringLaws.CarriageReturnFails | util/toml.hpp:13318-13343 | a carriage return alone is an error |
| StringLaws.BackslashTrims | util/toml.hpp:13484-13496 | a backslash at the end of a line, blanks aside, takes away the line end and the white space after it |
| StringLaws.FewQuotesMean | util/toml.hpp:13594-13621 | one or two quotes belong to a multi-line string |
| StringLaws.ManyQuotesMean | util/toml.hpp:13609-13636 | three to five quotes close it, those before the last three belonging to it |
| StringLaws.VerbatimMeans | util/toml.hpp:13698-13797 | between single quotes every character stands for itself |
| StringLaws.VerbatimLineEnds | util/toml.hpp:13698-13797 | line ends in a multi-line literal string are line feeds |
| StringLaws.FormPrinted | util/toml.hpp:16242-16274 | which of bare, single-quoted and double-quoted, one or three quotes, is printed, told by the characters and flags |
| StringLaws.EscapesPrinted | util/toml.hpp:16276-16302 | 8, 9, 10, 12, 13, 34 and 92 are printed as a backslash and 0x62, 0x74, 0x6E, 0x66, 0x72, 0x22 and 0x5C, tabs and line feeds as they are where allowed |
| StringLaws.CodePointsPrinted | util/toml.hpp:16304-16378 | other controls, and characters beyond ASCII where they are not allowed, are printed as u and four or U and eight capital digits |
| StringLaws.BytesPrinted | util/toml.hpp:16315-16329 | bytes that are not UTF-8 are printed one by one as u, two zeros and two digits |
| IntegerText.ParseInteger | util/toml.hpp:14254-14403 | in bases 2, 8, 10 and 16 what is taken is TakeInteger: at most 128 digits of a value in range, with underscores judged by the characters that the pointer to the previous one reads |
| IntegerText.TakesWhatIsRead | util/toml.hpp:14293-14326 | what is taken is what the grammar of TOML reads if and only if no misread character decides |
| IntegerText.MisreadIsRefilled | util/toml.hpp:12438 | a character is misread only if its block has been replaced, and only before an underscore or the end of the value |
| IntegerText.ShortValuesAreRead | util/toml.hpp:14725-14864 | values of up to 127 characters, which the scan of parse_value has put into the ring, are taken exactly as the grammar reads them |
| IntegerText.WellPlacedButRefused | util/toml.hpp:14299-14306 | a numeral of 127 digits with an underscore at the beginning of a block is read by the grammar and refused by the code |
| IntegerText.MisplacedButTaken | util/toml.hpp:14321-14326 | a numeral that ends with an underscore at the end of a block is taken by the code and not read by the grammar |
| IntegerText.ConsumeDigits | util/toml.hpp:14292-14326 | the digit loop keeps the digits without their underscores exactly if every character before an underscore reads as a digit, the last one does not read as an underscore, and there are at most 128 digits |
| IntegerText.Accumulate | util/toml.hpp:14368-14382 | the sum of digits times powers, in wrapping 64 bits, is the positional value |
| IntegerText.SumFits | util/toml.hpp:14368-14382 | no partial sum wraps |
| IntegerText.TooLong | util/toml.hpp:14361-14366 | more significant digits than the limit never fit, so the early refusal is right |
| IntegerText.Convert | util/toml.hpp:14327-14403 | leading zeros, range checks and the smallest integer are handled as the grammar demands |
| IntegerText.PrintIntegerToStream | util/toml.hpp:9972-10055 | digits in the flagged base, upper case, padded with zeros |
| IntegerText.ShownValue | util/toml.hpp:9972-10055 | the digits printed have the number's value and start with zero only for zero |
| IntegerText.PrintInteger | util/toml.hpp:16390-16435 | prefix and base follow the value's flags and the formatter's, for values that are not negative |
| IntegerText.IntegerRoundTrip | util/toml.hpp:16390-16435 | every 64-bit integer, printed with any flags anywhere in a document and followed by anything that ends a value, is read back |
| IntegerLaws.BasesInNumbers | util/toml.hpp:14263-14290 | integers begin with their sign or with 0x30 and the letter of their base, and what is read fits 64 bits |
| IntegerLaws.SignsInNumbers | util/toml.hpp:14263-14275 | both signs may stand before decimal digits, and only 0x2D makes a number negative |
| IntegerLaws.DigitLimit | util/toml.hpp:14293-14314 | the first numeral refused for its length has 129 digits |
| IntegerLaws.DigitsInNumbers | util/toml.hpp:8534-8570 | the digits of each base are these code points, with these values |
| IntegerLaws.UnderscoresInNumbers | util/toml.hpp:14297-14326 | an underscore between digits does not count, and none may stand elsewhere or beside another |
| IntegerLaws.PrintedInNumbers | util/toml.hpp:16390-16435 | prefix, digits and sign printed for each combination of flags, in capital letters and without leading zeros |
| DateTime.ParseDate | util/toml.hpp:14407-14458 | exactly the dates of the calendar are read, leap years included |
| DateTime.ParseTime | util/toml.hpp:14461-14545 | exactly the times of the clock are read, with a fraction of up to 64 digits |
| DateTime.ParseOffset | util/toml.hpp:14576-14606 | a sign, an hour and a minute are minutes within a day either way |
| DateTime.ParseFraction | util/toml.hpp:14520-14544 | the nanoseconds are the whole part of the decimal fraction times a thousand million |
| DateTime.FractionTruncates | util/toml.hpp:14534-14543 | digits after the ninth are cut off and missing ones count as zero |
| DateTime.AccumulateFraction | util/toml.hpp:14534-14540 | the 32-bit sum of nine digits does not wrap |
| DateTime.ParseDateTime | util/toml.hpp:14549-14614 | separator, time and optional offset are read as the grammar says |
| DateTime.OnlyValidIsRead | util/toml.hpp:14407-14614 | no text yields a value outside the calendar, the clock or a day's offset |
| DateTime.PrintTime | util/toml.hpp:10249-10268 | the fraction is printed without its trailing zeros, if it is in range |
| DateTime.PrintOffset | util/toml.hpp:10271-10297 | Z for zero, else sign, hours and minutes of two digits |
| DateTime.PrintDateTime | util/toml.hpp:10300-10307 | date, T, time and offset in a row |
| DateTime.DateTimeRoundTrip | util/toml.hpp:14549-14614 | a date-time is read back from print if and only if it is valid |
| DateTime.DateRoundTrip | util/toml.hpp:14407-14458 | a date is read back from print if and only if it is valid |
| DateTime.TimeRoundTrip | util/toml.hpp:14461-14545 | a time is read back from print if and only if it is valid |
| DateTimeLaws.DateInNumbers | util/toml.hpp:14407-14458 | year, month and day are read from their own digits, in this order, with 0x2D between them, and must be a day of the calendar |
| DateTimeLaws.CalendarInNumbers | util/toml.hpp:14423-14449 | the months have these days, with one more in the Gregorian leap years |
| DateTimeLaws.TimeInNumbers | util/toml.hpp:14461-14545 | hour, minute and second are read from their own digits with 0x3A between them, and what may follow is told |
| DateTimeLaws.FractionInNumbers | util/toml.hpp:14520-14544 | the first digit counts a hundred million nanoseconds, the ninth one, and no digit after it counts |
| DateTimeLaws.LongFractionsFail | util/toml.hpp:14520-14532 | a fraction of more than 64 digits is an error |
| DateTimeLaws.OffsetInNumbers | util/toml.hpp:14576-14606 | 0x2B counts forward and 0x2D backward, hours before minutes, and 0x5A and 0x7A stand for none |
| DateTimeLaws.DateTimeInNumbers | util/toml.hpp:14549-14614 | date, one of three separators, time and offset follow one another |
| DateTimeLaws.DatePrinted | util/toml.hpp:10239-10246 | year, month and day are printed in this order, digit by digit |
| DateTimeLaws.TimePrinted | util/toml.hpp:10249-10268 | hour, minute and second are printed in this order, and a fraction of nanoseconds without trailing zeros |
| DateTimeLaws.OffsetPrinted | util/toml.hpp:10271-10297 | the sign, the hours and the minutes of an offset, digit by digit |
| DateTimeLaws.PrintedInOrder | util/toml.hpp:10239-10246 | the order of two printed dates, character by character, is the order of the dates |
| TableTree.Walk | util/toml.hpp:15303-15359 | a header's parents: existing tables, last elements of table arrays, new implicit tables; the result is a valid document in which nothing was removed |
| TableTree.DefineIn | util/toml.hpp:15361-15456 | a header's last key: another element, the promotion of an implicit table, or something new; nothing is removed or overwritten |
| TableTree.Redefine | util/toml.hpp:15368-15426 | what is there is only extended by an element or given the header it lacked; the document stays valid and nothing is lost |
| TableTree.Enter | util/toml.hpp:15491-15527 | a dotted key's parents: dotted and implicit tables only, new dotted ones where none are; nothing is removed |
| TableTree.Insert | util/toml.hpp:15491-15556 | a key-value pair below dotted and implicit tables, refused when the key is there |
| TableTree.BuildIs | util/toml.hpp:15757-15839 | a built value is what was written, in inline tables too, and stands beside everything older |
| TableTree.DocumentOnlyGrows | util/toml.hpp:15558-15602 | over any part of an accepted run nothing is removed or overwritten, and scalars, plain arrays and inline tables with all below them never change |
| TableTree.PairsStayReadable | util/toml.hpp:15459-15556 | an accepted pair can be read ever after where its statement put it, with its value |
| TableTree.HeadersStayReachable | util/toml.hpp:15303-15456 | a header's keys lead from the root to its table ever after |
| TableTree.TargetsDiffer | util/toml.hpp:15361-15456 | no table is the target of two headers |
| TableTree.NoKeyTwice | util/toml.hpp:15491-15543 | in one table no accepted pair's keys repeat or continue those of another |
| TableAcceptance.BuildAccepts | util/toml.hpp:15757-15839 | in any document a value is accepted if and only if it and all around it are nested at most 256 deep and, in each of its inline tables, no pair's keys repeat, continue or cut short another's |
| TableAcceptance.InsertAccepts | util/toml.hpp:15491-15556 | a pair of an inline table is accepted if and only if its keys clash with no pair before and its value is accepted at its depth |
| TableAcceptance.TooManyBrackets | util/toml.hpp:14672-14676 | a number in brackets is accepted if and only if there are fewer than 256 of them |
| TableParser.AcceptedRuns | util/toml.hpp:15558-15602 | the parser accepts exactly the runs that the theorems speak of |
| TableParser.Parser.WalkTo | util/toml.hpp:15303-15359 | the loop over a header's parents does what Walk says, in place |
| TableParser.Parser.Promote | util/toml.hpp:15376-15404 | finding and erasing takes exactly that table off the implicit ones |
| TableParser.Parser.ParseTableHeader | util/toml.hpp:15303-15456 | the document and the target are those of Define, or there is an error |
| TableParser.Parser.EnterDotted | util/toml.hpp:15491-15527 | the loop over a dotted key's parents does what Enter says, in place |
| TableParser.Parser.ParseKeyValuePairAndInsert | util/toml.hpp:15459-15556 | the document is that of Insert at the depth reached, or there is an error |
| TableParser.Parser.ParseArray | util/toml.hpp:15688-15755 | the elements are built one after the other into the array, one level deeper, and the depth is as before when it is done |
| TableParser.Parser.ParseInlineTable | util/toml.hpp:15757-15839 | the pairs are inserted into the new table while it is open, and the depth is as before when it is done |
| TableParser.Parser.ParseDocument | util/toml.hpp:15558-15602 | the whole run in place: the final document, or an error exactly when a statement is one, too deep a value included |
| TableShapes.DocumentsAccepted | util/toml.hpp:15558-15602 | a document is accepted if and only if every statement is allowed by the keys and kinds of the statements before it, told without any nodes or lists of the parser |
| TableShapes.HeaderAccepted | util/toml.hpp:15303-15456 | a header is accepted if and only if no value is among its parents and its last key is new, or is a table array and this another element, or is a table made only by headers below it and holding nothing but tables |
| TableShapes.PairAccepted | util/toml.hpp:15459-15556 | a pair is accepted if and only if its value is, its keys are new below the current table, and among its parents are only tables without a header |
| TableShapes.HeaderIsHeaded | util/toml.hpp:15303-15456 | in every document, what a header does to the nodes and lists is what it does to the kinds of paths; a new element of a table array puts the paths below the last one out of reach |
| TableShapes.PairIsPaired | util/toml.hpp:15459-15556 | in every document, what a pair does to the nodes and lists is what it does to the kinds of paths |
| TableShapes.DotsGoThroughHeaders | util/toml.hpp:15505-15512 | after the headers `[a.b.c]` and `[a]` the pair `b.x` is accepted |
| Path.CallbacksSeeTheComponents | util/toml.hpp:10563-10739 | parsing with any callback is parsing first and handing over the components until the callback refuses |
| Path.Parse | util/toml.hpp:10563-10739 | the parsing loop does what the rounds of the specification do, for any callback |
| Path.ParseIndex | util/toml.hpp:10581-10668 | blanks, digits, blanks and an optional bracket are an index if the number fits |
| Path.Print | util/toml.hpp:11047-11066 | keys after a dot, but for the first, and indices in brackets |
| Path.PrintedReads | util/toml.hpp:11047-11066 | a printed path is read back without the empty keys that stand before an index |
| Path.PathRoundTrip | util/toml.hpp:10563-10739 | a path is read back if and only if it has components, clean keys, fitting indices and no empty key before an index |
| Path.NavigationAgrees | util/toml.hpp:10746-10788 | navigating by string and by its path reach the same node if and only if the string parses or the root is not entered |
| Path.Navigate | util/toml.hpp:11274-11316 | the loop over components reaches what folding them one by one reaches |
| PathLaws.OneKey | util/toml.hpp:10563-10739 | a text without dots and brackets is one key |
| PathLaws.DotSplits | util/toml.hpp:10673-10691 | 0x2E stands between keys, empty ones too |
| PathLaws.IndexMeans | util/toml.hpp:10581-10668 | decimal digits between 0x5B and 0x5D, with spaces and tabs around them, are the index they denote |
| PathLaws.BracketsFail | util/toml.hpp:10581-10695 | a bracket that closes nothing or opens without a digit is an error |
| PathLaws.OpenIndexMeans | util/toml.hpp:10581-10668 | an index at the end needs no closing bracket |
| PathLaws.AfterIndex | util/toml.hpp:10705-10723 | blanks after an index are skipped, other text there is an error |
| PathLaws.PrintedInNumbers | util/toml.hpp:11047-11066 | keys are printed after 0x2E, indices in decimal between 0x5B and 0x5D |
| PathLaws.NavigationSteps | util/toml.hpp:11274-11316 | a key leads to the child of that name, an index to the element at that place, counted from zero |
| PathLaws.NothingInside | util/toml.hpp:10746-10788 | navigating finds nothing in a value or an empty container, and something in all others |
| Flatten.TotalLeafCount | util/toml.hpp:11571-11580 | the recursive count is the number of leaves |
| Flatten.Elements.PreinsertionResize | util/toml.hpp:11446-11459 | later elements move up intact and the room made is null |
| Flatten.Elements.FlattenChild | util/toml.hpp:11583-11595 | a child's leaves fill exactly the nulls before them, and nothing else changes |
| Flatten.Elements.EraseEmpty | util/toml.hpp:11605-11624 | arrays without leaves go, all leaves stay, and the size computed is the final one |
| Flatten.Elements.Flatten | util/toml.hpp:11600-11646 | the elements become the left-to-right leaves, none lost, doubled or null, and the outer loop ends |
| Flatten.FlattenTwice | util/toml.hpp:11600-11646 | flattening again changes nothing |
| Flatten.LeavesInOrder | util/toml.hpp:11600-11646 | the leaves stand in the order of the elements, an array giving way to its own |
| Messages.HeaderRoundTrip | net/message.hpp:8-12 | a header and its eight bytes determine each other |
| Messages.HeaderInNumbers | net/message.hpp:8-12 | the header is the id and then the size, each least significant byte first |
| Messages.PullsWhatWasPushed | net/message.hpp:30-48 | what was pushed comes back last first, and the message is as before |
| Messages.Open.Append | net/message.hpp:30-38 | the data is added at the end and the size field follows |
| Messages.Open.Extract | net/message.hpp:40-48 | the data is taken off the end and the size field follows |
| Connection.OneWriteUnderWay | net/connection.hpp:90-164 | in every reachable state, until a write fails, exactly one write is under way if and only if the queue is not empty |
| Connection.DeliveredIsPrefixOfSent | net/connection.hpp:90-215 | in every reachable state, under any chunking, interleaving and failures, the delivered messages agree with a prefix of the sent ones if and only if the messages sent at their places tell the length of their bodies |
| Connection.NothingIsLost | net/connection.hpp:90-215 | when all is written and read, every sent message has been delivered as it was if and only if all of them told the length of their bodies |
| Connection.HalvesGoOn | net/connection.hpp:166-215 | over every run a receiver that was started has a read under way, after every delivery too, until a read fails, and writing has failed exactly if a write has |
| Connection.CanAlwaysDrain | net/connection.hpp:90-215 | from every reachable state in which nothing has failed the run can go on until all is written, read and, if the sizes are right, delivered |
| Connection.FramesPrefix | net/connection.hpp:116-205 | frames of consistent messages can be told apart, whatever follows: a prefix of bytes comes from a prefix of messages |
| Connection.StaleBody | net/connection.hpp:166-188 | a message of size 0 is delivered with the last announced body, so it is consistent if and only if none was announced before |
| Connection.StaleEchoBreaksFraming | net/connection.hpp:166-188 | a run in which a stale ping is sent back and the receiver then delivers something that was never sent |
| Connection.Endpoint.SendMessage | net/connection.hpp:90-100 | a message sent waits behind those sent earlier and is not written at once |
| Connection.Endpoint.RunPostedSend | net/connection.hpp:90-100 | the posted part of send queues the message and starts a write if none was under way |
| Connection.Endpoint.OnHeaderWritten | net/connection.hpp:116-143 | the header's handler goes on to the body, to the next message, or closes |
| Connection.Endpoint.OnBodyWritten | net/connection.hpp:145-164 | the body's handler goes on to the next message, or closes |
| Connection.Endpoint.OnHeaderRead | net/connection.hpp:166-188 | the header's handler resizes and reads the body, or delivers |
| Connection.Endpoint.OnBodyRead | net/connection.hpp:190-205 | the body's handler delivers |
| Replies.RepliesFollowRequests | net/football_server.hpp:18-76 | over every run the replies to a client are the accept message and one reply to each handled ping or request, in order: the ping itself, or exactly the response that the action gave for that request, under its id exactly if its record carries it |
| Replies.EmptyQueueMeansAllHandled | net/server.hpp:122-138 | with an empty queue every message of every client has been handled |
| Replies.WhatIsAnswered | net/football_server.hpp:30-57 | events 1 to 5 are answered and no others |
| Replies.EmbeddedInNumbers | net/football_server.hpp:61-76 | which four bytes of which records are the type that a reply takes |
| Replies.ClientIds | net/server.hpp:52-77 | clients are numbered from 10000 in the order they come |
| Replies.RepliesAreConsistent | net/football_server.hpp:61-76 | a request's reply tells its length; a ping's does if and only if the ping did |
| Replies.FootballServer.OnConnection | net/server.hpp:52-77 | a new client is sent the accept message first and gets the next id |
| Replies.FootballServer.ExecuteAction | net/football_server.hpp:61-76 | the record is pulled, and the reply takes its type and, as its body, the action's response |
| Replies.FootballServer.Update | net/server.hpp:122-138 | at most so many messages are handled, in order, each with its own reply |
| Conversation.BothWaysInStep | net/football_server.hpp:18-76 | at any moment of any runs, what the client sent arrives as sent and what the server replied comes back as replied, if and only if the client's messages tell the length of their bodies and no answer received is to a stale ping |
| Conversation.AnswersComeBack | net/football_server.hpp:18-76 | then the client gets the accept message and, in the order of what it sent, its pings as they were and for each request exactly the response its action gave, under the type in its record, nothing else and none too early |
| Conversation.EverythingIsAnswered | net/server.hpp:122-138 | when all is written, read and handled, every message has arrived and every answer has come back if and only if all messages told the length of their bodies and no ping was stale |
| Conversation.StaleWhenArrived | net/connection.hpp:166-188 | a ping arrives with a stale body if and only if it announces none and an earlier message announced one |
| TsQueue.NoPopOfEmpty | net/tsqueue.hpp:31-36 | with any number of producers and one consumer no step goes wrong: a pop after a false empty finds an item |
| TsQueue.NothingIsLost | net/tsqueue.hpp:47-81 | what was pushed is what was popped and what is queued, in order unless something was pushed to the front |
| TsQueue.QueueChanges | net/tsqueue.hpp:31-81 | pushes put their item first or last, pops take the first one, and nothing else changes the queue |
| TsQueue.PushThenNotify | net/tsqueue.hpp:47-81 | whoever put an item in notifies before it is idle again |
| TsQueue.NotifyWakes | net/tsqueue.hpp:47-81 | a notification wakes the consumer if it sleeps |
| TsQueue.WaitReturnsOnItems | net/tsqueue.hpp:101-108 | waiting ends only when there is something in the queue |
| TsQueue.WaitEndsOnItems | net/tsqueue.hpp:101-108 | a consumer that finds something in the queue comes back from waiting before it would sleep |
| TsQueue.UpdatePops | net/server.hpp:129-137 | an update that finds something pops it before it ends |
| TsQueue.OneLockOrder | net/tsqueue.hpp:47-108 | who waits for the queue's mutex holds none, and who holds the blocking mutex waits for none |
| TsQueue.NoDeadlock | net/tsqueue.hpp:47-108 | as long as a thread is neither idle nor asleep, some such thread can go on |
| SeasonStore.SaveWritesExactlyItsClubs | classes/season.hpp:152-161 | whatever the server rejects, after a save the season's links are those of its stored clubs whose links were written, and another season is untouched if and only if championship or year differ |
| SeasonStore.SaveResult | db/mysql.cpp:206-236 | a save rejected at the row changes nothing; otherwise its result is that of the last link |
| SeasonStore.SaveStores | db/mysql.cpp:206-236 | a season is stored by its save if and only if its championship is stored and its year is neither empty nor NULL, whatever its id, and then the tables are given exactly |
| SeasonStore.NewSeasonStored | net/event_action.cpp:31-40 | a season without an id that is new gets exactly one row more, with the next id |
| SeasonStore.LinkAllLinks | classes/season.hpp:152-161 | writing the links adds exactly those of the stored clubs whose writes were not rejected, and changes nothing else |
| SeasonStore.LoadsWhatWasSaved | classes/season.hpp:135-150 | a season saved with stored clubs is loaded with the same clubs, year and championship |
| SeasonStore.ListedNames | classes/season.hpp:135-150 | a loaded club has the name and the country of its own row |
| SeasonStore.SaveOfLoadedChangesNothing | db/mysql.cpp:406-429 | deleting the row with its links and writing all of it again is no change at all |
| SeasonStore.RemovalIsSaved | classes/season.hpp:97-108 | a club removed from a loaded season is gone from its links after the save, and nothing else is |
| SeasonStore.RemoveUndoesSave | db/mysql.cpp:238-252 | saving a new season and removing it leaves the tables as they were, but for the next id |
| SeasonStore.RemovedRows | db/mysql.cpp:238-252 | removing takes away exactly the row of that championship and year, with its links |
| SeasonStore.NewSeasonClubAddsExactlyTheClub | net/event_action.cpp:42-56 | the season's links become the old ones and the club, all else stays, and success means that both are stored or that the club passes for a nameless one |
| SeasonStore.NewSeasonClubIsIdempotent | net/event_action.cpp:42-56 | asking twice is asking once |
| SeasonStore.ClubSaveDropsItsLinks | db/football.sql:54-61 | saving a club with any name drops its links in every season and the other club of that name with its links, and touches no other club or link |
| SeasonStore.ReplaceIsValid | db/mysql.cpp:406-429 | REPLACE keeps the keys and foreign keys, leaves the new row without links, and touches exactly the seasons of that id or that championship and year |
| SeasonStore.SeasonObject.ById | classes/season.hpp:35-44 | a stored season is loaded with its row and clubs; otherwise only the id is set |
| SeasonStore.SeasonObject.ByYear | classes/season.hpp:17-28 | some season of the championship in that year is loaded; otherwise the key fields are set |
| SeasonStore.SeasonObject.AddClub | classes/season.hpp:69-78 | a club is added unless one of the same name and country is there |
| SeasonStore.SeasonObject.RemoveClub | classes/season.hpp:97-108 | the first club of the same name and country is removed and the others stay in order |
| SeasonStore.SeasonObject.Populate | classes/season.hpp:122-127 | values that are not empty are taken over, others stay |
| SeasonStore.SeasonObject.StartRelated | classes/season.hpp:135-150 | the clubs become those of the season's links, each once |
| SeasonStore.SeasonObject.SaveRelated | classes/season.hpp:152-161 | one link per club in order, and the result of the last |
| SeasonStore.SeasonObject.Save | db/mysql.cpp:206-236 | replacing, reading back by championship and year, and linking leave what SavedSeason says |
| SeasonStore.SeasonObject.Remove | db/mysql.cpp:238-252 | the row of the key goes with its links, and the object's fields are cleared |
| SeasonStore.HandleNewSeasonClub | net/event_action.cpp:42-56 | the link is added exactly if season and club are stored, and success is answered exactly then or when a club linked to the season has neither name nor country |
| Scheduler.EachTaskRunsOnce | scanner/scheduler.hpp:48-109 | over every run, whatever fails in a save and whenever an exception ends the thread, no task runs twice |
| Scheduler.QueuedTasksAreFinished | scanner/scheduler.hpp:80-93 | every queued result belongs to another task, one that was run, whose row says finished and holds the result's text |
| Scheduler.FetchTakesAllNew | scanner/scheduler.hpp:45-74 | a fetch takes up exactly the new tasks of a known type, each as its row has it |
| Scheduler.RunsWhenMarked | scanner/scheduler.hpp:78-81 | a task is run only when its row says running |
| Scheduler.OutcomeIsStored | scanner/scheduler.hpp:81-100 | after a run the row says finished or error as the run went, holds its text, and a result is queued exactly after a success |
| Scheduler.ExceptionEnds | scanner/scheduler.hpp:48-109 | after an exception no task is run, saved or queued any more |
| Scheduler.StatusMovesForward | scanner/scheduler.hpp:74-104 | stored statuses only move from new to running to finished or error, and no row disappears |
| Scheduler.FinalStaysFinal | scanner/scheduler.hpp:74-104 | a finished or failed task keeps its status |
| Scheduler.BatchIsSteps | scanner/scheduler.hpp:74-104 | the loop over a batch, up to an exception, is a run of the single steps the theorems speak of |
| Scheduler.Worker.Round | scanner/scheduler.hpp:74-104 | each task of a batch is saved, run, saved again and queued as its outcome says, until an exception |
| Scheduler.TaskObject.Save | db/mysql.cpp:206-236 | populating, inserting, reloading and resetting leave the row and the task as SavedTask says, and the save is accepted, refused or ended by an exception as the failing part makes it |
| Scheduler.TaskObject.Populate | scanner/task_base.hpp:192-200 | the task's status is taken over, and its results unless they are empty |

## Left out

- The forced second scan of a date within a value (`util/toml.hpp:14825-14864`) can exceed the ring; the ring is modelled under `step_back`'s own bound of 127 entries.
- IntegerText.ParseInteger: reads a document that is well-formed UTF-8 from its first code point on; the reader's errors end it elsewhere.
- Utf8Reader.SkipMark: models the byte order mark of a source held in memory; the variant that reads from a stream is not modelled.
- BufferedReader.Reader.ReadNext: the ring's index is not wrapped at the width of `size_t`.
- Floating-point values, the dispatch on a value's first characters, comments, bare keys and the JSON and YAML formatters are not modelled; statements of a document arrive with their keys and values read.
- StringText.TextRoundTrip: bare output of strings is excluded, since the printer's test for it ignores line feeds, tabs and single quotes (`util/toml.hpp:16171-16173`).
- Error messages, source regions beyond line and column, and the recording of keys for messages are not modelled; an error is the absence of a result.
- TableTree.Insert: the state left behind by a statement that is an error is not described, since the parser then gives up the document.
- Flatten.Elements.Flatten: an element moved away leaves a null; the moved-from child array itself is not observed again.
- Path.NavigationAgrees: keys and paths are sequences of code points; the bytes of a key are compared as they are.
- Sockets, resolvers, accept errors and the unused handshake are not modelled; a connection's stream is a first-in first-out sequence of bytes.
- Replies.RepliesFollowRequests: requests shorter than their record are excluded, since pulling them is undefined; the responses of actions are parameters, and disconnected clients are not removed.
- TsQueue.NoPopOfEmpty: `clear`, `front`, `back` and `pop_back` are not used by the consumer modelled; no wake-up is promised, because a notification between the test and the wait is lost.
- SeasonStore.SaveWritesExactlyItsClubs: SQL text, quoting, collation, column widths and connection errors during reads are not modelled; rejected writes are parameters.
- SeasonStore.NewSeasonClubAddsExactlyTheClub: ids beyond the range of `int`, for which `id_int` throws, are not modelled; the other three actions only save a single row.
- SeasonStore.ClubSaveDropsItsLinks: of a club's save only its REPLACE is modelled.
- Scheduler.EachTaskRunsOnce: the tasks table is not part of `db/football.sql`; its key is taken to be the id, tasks that others add are new, and of the statements only those of a save can fail.
