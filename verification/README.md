# Log analyzer: a verified model

The program parses web-server logs from JSON with a hand-written recursive descent parser, keeps them
in an analyzer with cached indexes, ranks, filters and counts them, and exports them as JSON and CSV.
This project models that in Dafny and proves what the pieces promise each other.

`dafny verify dfyconfig.toml` checks everything.

## Main results

* **The parser accepts exactly one language.** `Grammar` gives concrete syntax trees, the text each
  spells and the value it stands for, independently of the parser. `ParseCharacterized`: a text parses to
  `v` if and only if it is derived with value `v`. The language is larger than JSON (relaxed numbers, raw
  control characters, four forms that break off inside the outermost container). `DerivationUnique`: no
  text has two derivations. `AcceptsRfc` proves that RFC 8259 is inside the language, `RfcExactly` which
  accepted texts are texts of the RFC, and `TruncatedExactly` which ones break off.
* **What a text means is said apart from the parser.** `Meaning` gives the meaning of a derivation by
  character codes, real numbers and lookups. `ParseMeans`: a text parses to `v` if and only if a document
  spells it that means `v`.
* **Where a parse fails.** `ViablePrefix`: what stands before the reported position can still become an
  accepted text, beginning with what the fault asks for where more text follows. `NoContinuation`: with the
  characters that decide the failure it cannot, whatever follows. `FailureFound`: each fault finds at its
  position what it names.
* **The loops compute the specification, and what they cost.** `JsonParser` holds the parser's loops over
  an advancing position; each method is proved equal to a function of `ParserSpec`. `Parse` takes at most
  `6 * |s| + 7` calls and iterations. Because values are passed by copy it also copies tree values: four
  times their number stays below `|s| * |s|` when it succeeds, a bound that nested brackets attain
  (`NestedCost`), and the number is at most `|s|` times the depth of nesting (`DocumentNesting`).
* **Printing and parsing.** `SharpRoundTrip`, for every tree in both layouts: it comes back if and only if
  no string or key holds a quote or a backslash and every number has at most six significant digits
  (`oss << double`, modelled in full). The printer never escapes; counting backslashes shows that a
  tree that needed escapes never comes back by accident. `CompactToPretty` gives the pretty layout as a
  one-pass formatter of the compact text, `PrintedInForm` and `RoundedNearest` the form of a number.
* **Export and import.** `ExportImportExactly`, with no precondition: any list of records comes back if and
  only if no field holds a quote or a backslash and every status has at most six significant digits, even
  though a field may contain text that looks like further fields and records. `ExportSpelled` gives the file
  character by character, `ImportSpelled` and `ReadsUnique` which elements of an array are read, and as what.
* **CSV.** `CsvBack`, with no precondition: an RFC 4180 reader recovers header and rows if and only if no url
  holds a quote and no other field a comma, a quote or a line break.
* **The analyzer over whole runs.** `CacheInvariant` and `CurrentExactly` say what the cached indexes hold
  after any sequence of calls and exactly when they are stale. `Queries.Answers` states what a right reply
  to each query is, the class methods give right replies in every state, and `CacheUnobservable` proves that
  a reply agrees with that of an analyzer that was asked nothing before. `AnswersOnFields` states every
  right reply on the fields of the records, `LogsSinceReset` the log list after any run.
* **Validation.** `MethodsAccepted`, `OctetsAccepted`, `StatusesAccepted` and `TimestampsAccepted` list what
  the validators accept.
* **Time.** `StringOrderIsTimeOrder`: comparing timestamps as strings is comparing the times they denote.

## Reading the model

* A `std::string` is a sequence of characters that stand for bytes; indexing it at its size gives NUL.
  `isspace`, `isdigit` and `toupper` are those of the C locale; their behaviour on negative `char` values is
  not modelled.
* The number of a `JsonValue` is an exact normal decimal `m * 10^e`. Rounding of a double to binary, range
  errors of `stod`, infinities and the sign of zero are abstracted away; the rounding that printing with six
  digits does is not.
* A `std::map` is a strictly ascending sequence of bindings where order matters (`WellFormed`), and a Dafny
  map where it does not. The iteration order of an `unordered_map` and the order `std::sort` gives to equal
  counts are arbitrary.
* A position passed by reference is an in-parameter and part of the result. An exception of the parser is a
  `Fault` with its position; the wording of the message is not kept.
* `int` and `size_t` are unbounded.
* Files are the texts read from or written to them; a line break is a line feed.

## Where the code and its documentation or tests disagree

The model follows the code.

* `{` alone is accepted, as are `[`, `[1,` and `{"a":1,`, because the container loops end normally at the end
  of the text (src/json_parser.cpp:72, src/json_parser.cpp:123); tests/test_json.cpp:258 expects an exception.
* `1.` is accepted as 1 (src/json_parser.cpp:216-221); tests/test_json.cpp:324 expects an exception.
  `LenientExamples` states both.
* `validateTimestamp` checks the shape only; tests/test_log_entry.cpp:21-24 expect month 13, hour 25,
  minute 60 and second 61 to be refused. `ShapeOnly` states the four inputs, and `RangesExactly` when a valid
  timestamp is one of a time in range, as a check on its text.
* `formatISOTimestamp` prints 20 characters into a buffer of 20 bytes and so loses the final `Z`
  (src/analyzer.cpp:420-426). `FormatParsed` states it.
* `addLog` and `clear` leave the indexes as they are (include/analyzer.h:94-95), so they can be stale while
  the flag says they are built. `StaleExample` and `CurrentExactly` state when.
* `JsonValue jsonArray(JsonType::Array)` (src/analyzer.cpp:313) matches no declared constructor; it is read
  as an empty array.
* docs/REPORT.md:101 claims that parsing is O(n). That holds of calls and loop iterations, and of the copies of
  tree values where nesting is bounded; on nested brackets the copies are quadratic.

## Model

| member | source | states |
|---|---|---|
| JsonParser.SkipWhitespace | src/json_parser.cpp:11-15 | The loop stops where the specification says, with one unit of work for each character skipped and one for the call. |
| JsonParser.ParseValue | src/json_parser.cpp:31-58 | The method returns what the specification says on every text and position, failure and its position included, with at most six units of work for each character consumed. |
| JsonParser.ParseObject | src/json_parser.cpp:61-109 | The member loop, assigning into a map, returns what the specification says, also when it ends at the end of the text, within the same work bound. |
| JsonParser.ParseMember | src/json_parser.cpp:73-91 | One turn of the member loop up to the value, with its three ways to fail. |
| JsonParser.ParseArray | src/json_parser.cpp:112-144 | The element loop returns what the specification says, also when it ends at the end of the text, within the same work bound. |
| JsonParser.ParseString | src/json_parser.cpp:147-171 | The character loop returns what the specification says and does no more work than it consumes characters. |
| JsonParser.ParseEscapeSequence | src/json_parser.cpp:174-199 | Each escape letter, the four characters skipped behind u, and the two failures with their positions. |
| JsonParser.ScanNumber | src/json_parser.cpp:206-232 | Sign, digits, fraction and exponent are skipped by maximal munch, with no more work than characters. |
| JsonParser.ParseNumber | src/json_parser.cpp:202-242 | The scanned run is converted, or reported at its start when it has no digit. |
| Completeness.KeywordOver | src/json_parser.cpp:245-261 | Where one of the three words stands, the parser reads it as its value and stops behind it. |
| Soundness.KeywordSound | src/json_parser.cpp:245-261 | What the keyword parser accepts is one of the three words, standing at the position. |
| JsonParser.Parse | src/json_parser.cpp:18-28 | Parsing a whole text is the specification and takes at most 6n + 7 calls and iterations. It copies at most n times the nesting many tree values, and c of them with 4c + 1 at most n squared when it succeeds. |
| Nesting.NestedCost | src/json_parser.cpp:126-143 | The number 1 inside k brackets, a text of n = 2k + 1 characters, has c values copied with 4c + 1 equal to n squared: the bound is attained at every odd length. |
| Nesting.DocumentNesting | src/json_parser.cpp:31-144 | The calls of the container parsers nest exactly as deep as the one derivation of the text. |
| Copies.CopiedByDepth | src/json_parser.cpp:91-143 | Assembling a tree copies at most twice its depth times its number of values. |
| JsonParser.IsValid | src/json_parser.cpp:379-389 | Total; true exactly when parsing returns, and otherwise reports the fault at a position within the text. |
| FailureTheorems.ViablePrefix | src/json_parser.cpp:18-261 | The text before the position of a failure can be continued to an accepted text, beginning with what the fault asks for. |
| FailureTheorems.NoContinuation | src/json_parser.cpp:18-261 | With the characters that decide a failure, the one at its position for most faults, every continuation fails in the same way at the same place. |
| FailureTheorems.FailureFound | src/json_parser.cpp:24-259 | Each of the thirteen faults finds at its position what it names. |
| ParserSpec.ParseValue | src/json_parser.cpp:31-58 | Progress: success moves the position forward and never beyond the text; a failure position is within the text. |
| ParserSpec.ParseString | src/json_parser.cpp:147-171 | A string that parses consumes at least its two quotes. |
| ParserSpec.Parse | src/json_parser.cpp:18-28 | Success means the whole, non-empty text was consumed; failure carries a position within the text. |
| JsonTree.PutSorted | src/json_parser.cpp:91 | Assigning into the map keeps its keys strictly ascending. |
| JsonTree.PutLookup | src/json_parser.cpp:91 | After the assignment the key has the new value and every other key its old one: the last duplicate wins. |
| JsonTree.MapExtensional | include/json_parser.h:28 | Two maps that answer every lookup alike are the same tree. |
| Scanning.StodNumeral | src/json_parser.cpp:234-241 | stod on a spelled numeral gives the number the numeral denotes, and fails exactly when no digit stands around the point. |
| ParserTheorems.SameNumber | src/json_parser.cpp:234-241 | Two numerals are read as the same number exactly when they are equal as decimals, however they are spelled. |
| Completeness.ParseComplete | src/json_parser.cpp:18-261 | Every text the grammar derives is accepted with the value the derivation gives it. |
| Soundness.ParseSound | src/json_parser.cpp:18-261 | Every accepted text has a derivation with the value the parser returned. |
| ParserTheorems.ParseCharacterized | src/json_parser.cpp:18-261 | A text parses to v if and only if it is derived with value v. |
| Meaning.PiecesMeaning | src/json_parser.cpp:147-199 | A run of characters and escapes is read as a string exactly when the codes of its characters are those of the escape table, of ? for \u, and otherwise its own. |
| Meaning.NumeralMeaning | src/json_parser.cpp:202-242 | A numeral is read as a number exactly when it is spelled as the scanner allows and the number is its value as a real number. |
| Meaning.ValueMeaning | src/json_parser.cpp:31-261 | A derivation has the value v exactly when, told by codes, real numbers and lookups, it means v. |
| Meaning.ParseMeans | src/json_parser.cpp:18-261 | A text parses to v if and only if some document spells it and means v. |
| Uniqueness.DerivationUnique | src/json_parser.cpp:18-261 | No text has two derivations: the grammar is unambiguous down to the white space. |
| ParserTheorems.ParsedWellFormed | src/json_parser.cpp:65-108 | Every object in a parsed tree is a proper map, at every depth. |
| ParserTheorems.ParsedNodes | src/json_parser.cpp:18-261 | The parsed tree has no more values than the text has characters. |
| Truncation.TruncatedExactly | src/json_parser.cpp:72-143 | An accepted text breaks off inside its outermost container exactly when its last visible character is a comma or an opening bracket. |
| Truncation.LenientExamples | src/json_parser.cpp:72-108 | The texts { and 1. parse, to an empty object and to 1. |
| Rfc8259.AcceptsRfc | src/json_parser.cpp:18-261 | A text of the grammar of RFC 8259, sections 2 to 7, parses to exactly the tree it denotes: characters by their codes, numbers as exact real numbers, \u escapes read as ? and the last duplicate winning. |
| Rfc8259.DenotesTree | src/json_parser.cpp:18-261 | Every value of that grammar denotes a tree. |
| Rfc8259.RfcExactly | src/json_parser.cpp:18-261 | An accepted text is one of RFC 8259 exactly when its one derivation is closed and uses only what the RFC allows. |
| NumberPrinting.RoundNearest | src/json_parser.cpp:324 | The digits kept are those of a nearest number, the even one on a tie. |
| PrintedForm.RoundedNearest | src/json_parser.cpp:324 | A number of more than six significant digits is printed as a nearest one of six, the even one of two; any other is printed as it is. |
| PrintedForm.PrintedInForm | src/json_parser.cpp:324 | Fixed notation from 10^-4 to below 10^6, otherwise scientific with a signed exponent of two digits at least; no zero too many before or after the point. |
| NumberPrinting.NumberTextValue | src/json_parser.cpp:324 | The printed text is a numeral and denotes the number rounded to six significant digits, in either notation. |
| NumberPrinting.RoundedFixed | src/json_parser.cpp:324 | A number is printed without loss exactly when it has at most six significant digits; rounding twice is rounding once. |
| NumberPrinting.SmallIntegerText | src/json_parser.cpp:324 | Integers below a million in magnitude are printed digit by digit and exactly. |
| JsonPrinter.WriteValue | src/json_parser.cpp:316-372 | The recursive writer appends the printed text of the value to the stream and nothing else. |
| JsonPrinter.WriteArray | src/json_parser.cpp:329-348 | The element loop with its commas, line breaks and indentation appends the array's text. |
| JsonPrinter.WriteObject | src/json_parser.cpp:349-371 | The member loop appends the object's text. |
| JsonPrinter.ToString | src/json_parser.cpp:310-376 | The text of a value in either layout. |
| RoundTrip.SyntaxOfText | src/json_parser.cpp:316-372 | The printed text is spelled by a syntax tree, in both layouts, whatever the strings hold. |
| RoundTrip.ParsePrinted | src/json_parser.cpp:310-376 | Parsing a printed tree with clean strings gives the tree with its numbers rounded to six digits. |
| RoundTrip.PrintParsePrint | src/json_parser.cpp:310-376 | Printing what was read back reproduces the text. |
| SharpDomain.ParsedNeed | src/json_parser.cpp:147-199 | Every accepted text holds the backslashes needed to spell the strings and keys it is read as. |
| SharpDomain.PrintSlashes | src/json_parser.cpp:316-372 | A printed tree holds exactly the backslashes of its strings and keys. |
| SharpDomain.SharpRoundTrip | src/json_parser.cpp:310-376 | Any tree, in either layout, comes back exactly when no string and no key holds a quote or a backslash and every number has at most six significant digits. |
| SharpDomain.SharpRounding | src/json_parser.cpp:310-376 | Any tree, in either layout, comes back with nothing changed but the rounding of its numbers exactly when no string and no key holds either. |
| Layout.MinifyKeepsValue | src/json_parser.cpp:11-15 | White space outside string literals can be deleted from any accepted text without changing its value. |
| Layout.StripTwice | src/json_parser.cpp:11-15 | Deleting that white space twice is deleting it once. |
| Layout.PrettyToCompact | src/json_parser.cpp:316-372 | The pretty text without its layout is the compact text. |
| Formatter.CompactToPretty | src/json_parser.cpp:329-371 | The pretty text is the compact text formatted in one pass: line breaks around the elements, two spaces for each open bracket, a space behind each colon, nothing inside empty containers. |
| Layout.CompactShorter | src/json_parser.cpp:316-372 | Compact is strictly shorter for non-empty containers and equal for everything else. |
| LogEntries.ValidateIP | src/log_entry.cpp:26-43 | True exactly for four decimal octets of one to three digits and at most 255 between dots. |
| LogEntries.MatchedOctets | src/log_entry.cpp:27-40 | The groups captured from the text are the four octets of the address. |
| LogEntries.UpperInPlace | src/log_entry.cpp:49-50 | The copy is upper-cased in place, character by character. |
| LogEntries.ValidateMethod | src/log_entry.cpp:46-53 | True exactly when the upper-cased name is one of the nine methods. |
| Validation.MethodsAccepted | src/log_entry.cpp:46-53 | The methods accepted are the nine names in any mixture of cases and no others. |
| Validation.UpperSame | src/log_entry.cpp:49-50 | Two names agree in upper case exactly when they are the same but for the case of letters of the two alphabets. |
| Validation.OctetsAccepted | src/log_entry.cpp:27-40 | An octet is a number from 0 to 255, with leading zeros up to three digits in all. |
| Validation.StatusesAccepted | src/log_entry.cpp:56-58 | The statuses accepted have three digits of which the first is 1 to 5. |
| Validation.TimestampsAccepted | src/log_entry.cpp:19-23 | The timestamps accepted, position by position. |
| Validation.MethodFilter | src/analyzer.cpp:104-120 | filterByMethod keeps the records whose method is the name but for the case of letters. |
| LogEntries.IsValid | src/log_entry.cpp:11-16 | True exactly when timestamp shape, address, method and status are all valid. |
| LogEntries.ValidFieldsPlain | src/log_entry.cpp:11-58 | Validation keeps separators, quotes and line breaks out of every field but the url. |
| LogJson.BuildExport | src/analyzer.cpp:313-324 | The loop of map assignments builds the tree of the list. |
| LogJson.AsLogEntries | src/json_parser.cpp:413-440 | Fails exactly on a value that is no array; otherwise keeps, in order, the elements that are objects with the five fields of the right types. |
| Records.ImportSpelled | src/json_parser.cpp:413-440 | Exactly arrays are read; the records stand at ascending positions, each an object whose ts, ip, method and url are the strings and whose status is a number cut toward zero, and every other element lacks one of the five. |
| Records.ReadsUnique | src/json_parser.cpp:413-440 | There is only one way to read an array so. |
| LogJson.ExportImportRounds | src/analyzer.cpp:311-332 | With clean fields the export reads back as the list with every status cut to six digits. |
| LogJson.StatusBack | src/json_parser.cpp:430 | A status survives printing and truncation exactly when it has at most six significant digits. |
| LogJson.ValidExportImport | src/analyzer.cpp:311-332 | Valid records with clean urls survive, lists of any length. |
| ExportDomain.ImportedTotal | src/json_parser.cpp:413-440 | By any measure of texts, the records read from a tree hold no more than its strings and keys. |
| ExportDomain.ReimportedNeed | src/analyzer.cpp:311-332 | Whatever records an export is read back as, spelling them needs at most the backslashes the exported fields hold. |
| ExportDomain.ExportSpelled | src/analyzer.cpp:311-332 | The exported file of any list, character by character. |
| ExportDomain.ExportImportExactly | src/analyzer.cpp:311-332 | For every list: export then import gives it back, in order and with duplicates, exactly when all fields are clean and all statuses have at most six digits. |
| Csv.ExportToCsv | src/analyzer.cpp:288-308 | The file is the header and one line for each record, in order. |
| Csv.QuotedField | src/analyzer.cpp:302 | A field between quotes reads back exactly when it holds no quote. |
| Csv.UnquotedField | src/analyzer.cpp:299-301 | A field written without quotes reads back exactly when it holds no comma, quote or line break. |
| Csv.LineBack | src/analyzer.cpp:299-303 | Any written line reads back as its row exactly when the url holds no quote and the other fields nothing special. |
| Csv.CsvBack | src/analyzer.cpp:288-308 | For every list: the file reads back as header and exactly the rows if and only if no url holds a quote and no other field a comma, a quote, a line feed or a carriage return, told by their codes. |
| Csv.ValidCsvBack | src/analyzer.cpp:288-308 | For valid records only quotes in urls stand in the way. |
| Timestamps.ParsedFields | src/analyzer.cpp:406-418 | sscanf assigns all six fields of a well-shaped timestamp, with or without its Z. |
| Timestamps.BrokenTimestamp | src/analyzer.cpp:406-418 | Of a timestamp that breaks off the numbers begun are read as far as they go and all later fields are zero; years count from 1900, months from January. |
| Timestamps.FormatParsed | src/analyzer.cpp:420-426 | Formatting a parsed timestamp gives all of it but the Z, which is no valid timestamp but parses to the same time. |
| Timestamps.RangesExactly | src/log_entry.cpp:19-23 | A timestamp the validator accepts denotes a month, day, hour, minute and second in range exactly when its digit groups stand between the texts of the limits. |
| Timestamps.ShapeOnly | src/log_entry.cpp:19-23 | Month 13, hour 25, minute 60 and second 61 are each accepted and out of range. |
| Timestamps.StringOrderIsTimeOrder | src/analyzer.cpp:428-434 | isEarlier and isLater on well-shaped timestamps are the order of the parsed field tuples. |
| Text.LessSpelled | src/analyzer.cpp:428-434 | The order of strings is decided at the first difference, the shorter text first. |
| Ranking.CountKeys | src/analyzer.cpp:46-48 | Incrementing the map for every element counts every key. |
| Ranking.SortByCount | src/analyzer.cpp:52-55 | The array is permuted into non-increasing order of counts. |
| Ranking.TopKeys | src/analyzer.cpp:43-61 | Distinct keys with exact counts in non-increasing order, as many as asked for, and nothing left out is counted more often than what stays. |
| Ranking.TopCountsUnique | src/analyzer.cpp:50-59 | However ties and hashing fall, the counts in the ranking are determined. |
| Ranking.FullTop | src/analyzer.cpp:57-59 | An untruncated ranking names every key and its counts sum to the number of logs. |
| Ranking.SuspiciousKeys | src/analyzer.cpp:269-285 | Without duplicates, exactly the keys counted more often than the threshold. |
| Ranking.SuspiciousIsPrefix | src/analyzer.cpp:269-285 | They are the keys of the longest prefix of the full ranking that exceeds the threshold. |
| TimeRanges.TimeRange | src/analyzer.cpp:171-189 | The least and the greatest timestamp, or two empty strings. |
| TimeRanges.OwnRangeKeepsAll | src/analyzer.cpp:123-135 | Filtering by a list's own range gives the whole list. |
| TimeRanges.RangesMeet | src/analyzer.cpp:335-342 | Being in two ranges is being in their intersection, an empty limit standing for none. |
| TimeRanges.FilterTwiceMeets | src/analyzer.cpp:123-135 | Filtering twice is filtering once by the intersection. |
| Counting.PickIsFilter | src/analyzer.cpp:141-144 | Picking the positions listed for a key is filtering by the key. |
| Cache.PushStep | src/analyzer.cpp:394-398 | One push_back extends the index of a prefix to that of the next. |
| Cache.IndexDetermines | src/analyzer.cpp:387-401 | An index determines its column: two columns with the same index are equal. |
| Cache.CacheInvariant | src/analyzer.cpp:12-26 | After any run a set flag means the indexes are exactly those of the list at the last build. |
| Cache.CurrentExactly | src/analyzer.cpp:387-401 | Indexes asked for now describe the current list exactly when the flag was clear or address, url and time of every record are those of the last build. |
| Cache.StaleExample | include/analyzer.h:94-95 | Ranking, adding and ranking again leaves the added record out of the indexes. |
| Cache.WritesOnly | src/analyzer.cpp:40-62 | Dropping all queries from a run ends in a new analyzer over the list the whole run ends with. |
| Cache.CacheUnobservable | src/analyzer.cpp:40-62 | After any run a right reply to any query agrees, in the sense of the next row, with a right reply of the analyzer that was asked nothing before. |
| Queries.RepliesAgree | src/analyzer.cpp:40-332 | The log list determines the reply to every query, up to the order of names and of equal counts; rankings that are cut among equal counts may also differ in which of those keys they keep. |
| Fields.AnswersOnFields | src/analyzer.cpp:40-332 | A reply is right exactly when it is right on the fields of the records: selected positions for the filters, numbers of records for rankings, distributions and suspicious addresses. |
| Cache.LogsSinceReset | src/analyzer.cpp:17-26 | After any run the list is what the last clear or successful load left, followed by what was added since. |
| Cache.LogsAdded | include/analyzer.h:93-95 | Without a clear or a successful load the list is the first one followed by what was added. |
| Cache.LoadRefreshes | src/analyzer.cpp:17-26 | A load of an array makes the next ranking rebuild the indexes; any other value changes nothing. |
| Cache.GrowthKeepsPrefixes | include/analyzer.h:95 | While records are only added, each indexed list is a prefix of the current one. |
| Cache.IndexIsScan | src/analyzer.cpp:387-401 | Right after a build the records listed for an address are those filterByIP finds, as many as are counted. |
| Cache.IndexPartitions | src/analyzer.cpp:394-398 | Right after a build each index partitions all positions: each is listed under its own key and no other, in strictly ascending lists. |
| Analyzer.LogAnalyzer.constructor | src/analyzer.cpp:12-14 | A new analyzer has the given logs, empty indexes and a clear flag. |
| Analyzer.LogAnalyzer.LoadFromJson | src/analyzer.cpp:17-26 | Succeeds exactly on arrays, replaces the logs and clears the flag; a failure changes nothing. |
| Analyzer.LogAnalyzer.AddLog | include/analyzer.h:95 | Appends the record and touches neither indexes nor flag. |
| Analyzer.LogAnalyzer.ClearLogs | include/analyzer.h:94 | Empties the logs and touches neither indexes nor flag. |
| Analyzer.LogAnalyzer.EnsureIndexesBuilt | src/analyzer.cpp:387-401 | A set flag leaves everything; otherwise the loop builds the three indexes of the current logs. |
| Analyzer.LogAnalyzer.GetTopIPs | src/analyzer.cpp:40-62 | In every state of the cache the reply is a top list of the current logs, and the indexes are built if they were not. |
| Analyzer.LogAnalyzer.GetTopURLs | src/analyzer.cpp:65-87 | The same for urls. |
| Analyzer.LogAnalyzer.GetTimeRange | src/analyzer.cpp:171-189 | The range of the logs, by which filtering them changes nothing. |
| Analyzer.LogAnalyzer.GetStatusDistribution | src/analyzer.cpp:192-200 | Every status with its count. |
| Analyzer.LogAnalyzer.GetMethodDistribution | src/analyzer.cpp:203-211 | Every stored spelling of a method with its count. |
| Analyzer.LogAnalyzer.FindSuspiciousIPs | src/analyzer.cpp:269-285 | Exactly the addresses counted more often than the threshold. |
| Analyzer.LogAnalyzer.ExportToCSV | src/analyzer.cpp:288-308 | Writes the CSV text of the logs. |
| Analyzer.LogAnalyzer.ExportToJson | src/analyzer.cpp:311-332 | Writes the pretty text of the export tree. |
| Analyzer.DistributionTotal | src/analyzer.cpp:192-211 | The counts of a distribution sum to the number of logs, for statuses and methods alike. |
| Analyzer.StatusCountIsFilter | src/analyzer.cpp:90-101 | The count of a status is the number of records filterByStatus finds. |
| Analyzer.FailedTotal | src/analyzer.cpp:257-266 | The failed requests are as many as the counts of all statuses from the threshold on. |
| Analyzer.MethodTotal | src/analyzer.cpp:104-120 | filterByMethod finds as many records as all stored spellings of the name are counted. |
| Analyzer.TopCountIsFilter | src/analyzer.cpp:40-62 | In every state of the cache a reported count is the size of filterByIP, and the length of the list a fresh index holds. |

## Left out

- JsonParser.Parse: the counts of work and copies leave out the moves of a growing vector and the characters of copied strings, and the depth of the call stack is not bounded.
- JsonParser.ParseNumber: `stod` fails only when there is no digit; its range errors are abstracted away with binary floating point.
- Binary floating point: rounding in `stod`, its range errors, infinities and negative zero, and locales other than C.
- Overflow: `int` counters, `static_cast<int>` of a number out of range, and fields too long for `sscanf`.
- File handling: opening, reading and writing files, the byte order mark, and line break translation.
- `JsonValue` accessors `operator[]`, `size` and `empty`; `asBoolean`.
- `LogEntry::fromJsonString`, whose pattern does not describe a usable format, `LogEntry::toString`, and wide strings.
- `filterByURL` and the filter by a caller's predicate: plain selections.
- `getDetailedStatistics`, whose request rate is a fixed formula, and `getTotalRequests`.
- `extractDomain`, `extractPath`, `getCurrentTimeISO` and `convertToLocalTime`.
- The hash function and the inside of `unordered_map` and `std::sort`; `SortByCount` is an insertion sort with the contract of `std::sort`.
- Members that are declared but not defined: `findSlowPeriods`, `exportToExcel`, `buildIPIndex`, `buildURLIndex`, `buildTimeIndex`, `secondsDifference`.
- `main.cpp`, `formatter.cpp` and `windows_utils.cpp`: menus, tables and operating system calls.
