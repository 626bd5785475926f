# The CDDB record engine in Dafny

libcddb reads, writes and caches disc records of the freedb format. This project models the engine that does so, and
proves what it promises:

* the record parser, a switch with fall-through that is driven line by line and changes a disc in place, and where a
  record ends (`Patterns`, `Parser`, `RecordReader`, `ParserRuns`, `Splits`, `Endings`);
* the record writer, which prints into a fixed buffer and moves its pointer by lengths worked out by hand, and the
  round trip from writer to parser, line by line and through the file (`Format`, `Writer`, `WriterSizes`, `Entries`,
  `RoundTrip`, `ManyTracks`);
* the local cache: line-by-line reading, entry files and their replay, and the 256-slot table in front of the search
  over the category directories (`Streams`, `Cache`, `QueryCache`);
* the connection with its read, query, query-next and write commands (`Protocol`, `Client`, `Sessions`), the commands
  as a server reads them (`Commands`), the answers it gives (`Answers`), and the results of a text search (`Search`);
* the structures underneath: discs with their linked tracks, merging, the disc identifier, track lengths and offsets,
  the result list, and the Base64 encoder (`Text`, `Records`, `Discs`, `CArith`, `DiscId`, `TrackTimes`, `ResultList`,
  `Base64`);
* for each property that fails, a concrete input (`Witnesses`).

What the source updates in place is a class or an array here, and each method is proved against functions on values;
the theorems are about those functions. A NULL string is `None`; unset numbers keep their sentinels. A ghost sequence
in a disc or a list names the nodes of the linked structure, and `Valid` ties it to the links.

Where the code does not do what one would expect, the code is what is modelled. Each of these properties has an input at
which it fails and the exact condition under which it holds:

* The hand-computed width of a track index is right for tracks 0 to 19 only. From track 20 on too many bytes are
  skipped, so the terminating zero of the print stays in the file, and the line after `TTITLE20` reads as empty
  (`Entries.LostLine`, `Witnesses.TwentyOneTracks`). The lines read back exactly when there are at most 20 tracks and
  every number fits its columns (`Entries.FileReadsBack`); the disc comes back also with 21 tracks if it has no extended
  data (`ManyTracks.FileRoundTrip`).
* The columns of a number are fixed too: a year of three digits leaves a zero in the file, one of five digits runs into
  the next line (`WriterSizes.SizesExact`, `Entries.ExactFile`, `Witnesses.YearOfThreeDigits`).
* A `DTITLE` without a delimiter gives the title its value when the next line comes; the title stays unset exactly when
  none comes (`Splits.LoneTitle`, `Witnesses.TitleAtTheEnd`).
* The initialisation of the query table marks four slots, not 256. The table is right because static memory is zero and
  `cddb_query` refuses the identifier 0; for 0 itself it may answer wrongly (`QueryCache.FourAreMarked`,
  `QueryCache.LookupAgrees`, `Witnesses.ZeroIsFound`).
* A saved line that fills the read buffer comes back as two lines (`Streams.ReplayExact`, `Witnesses.FullLine`).
* A match without an artist leaves the artist of an earlier match in the caller's disc (`Protocol.LatestMatch`,
  `Witnesses.EarlierArtist`).
* `list_flush` leaves the iterator where it was. A query leaves it on a freed element, which `cddb_query_next` would
  follow, exactly when it was not past the end before and no list of matches was accepted (`ResultList.List.Flush`,
  `Client.Conn.Query`, `Witnesses.StaleIterator`); a text search, when it was not past the end and nothing was found
  (`Search.Search`). Otherwise the next call is safe (`ResultList.List.SafeIsAt`).
* The buffer of the proxy credentials is too small when user name and password are both empty (`Base64.BufferFits`,
  `Witnesses.ColonDoesNotFit`).

## Model

| member | source | states |
|---|---|---|
| Text.SplitJoin | lib/cddb_regex.c:68-69 | Joining artist and title with the delimiter and splitting at its last occurrence gives both back for every artist, and for exactly the titles that hold no delimiter and do not start with `/ ` |
| Text.Hex8Injective | lib/cddb_cmd.c:127-128 | Two identifiers print alike only if they are equal |
| Text.HexIsLower | lib/cddb_cmd.c:127-128 | The digits of an identifier are printed as small letters |
| Text.HexDigitValues | lib/cddb_cmd.c:985-986 | Each digit counts as its place in the alphabet, and a capital as its small letter |
| Text.CharacterClasses | lib/cddb_regex.c:59-83 | The characters that count as digits, blanks and hexadecimal digits |
| Text.DecimalWidth | lib/cddb_cmd.c:1373-1403 | A number fits k columns exactly when it is below ten to the k |
| Patterns.MatchNumberExact | lib/cddb_regex.c:62-67 | The matcher accepts a comment line with number n exactly when the line is in the language of the expression, blanks and repeated units included, with n captured |
| Patterns.MatchHeadingExact | lib/cddb_regex.c:60-61 | The matcher for the heading of the offsets accepts exactly the lines of its expression |
| Patterns.MatchDigitsExact | lib/cddb_regex.c:70-71 | The matcher for the year accepts exactly the keyword and digits, or the keyword alone |
| Patterns.ScanComments | lib/cddb_regex.c:60-67 | One scan finds heading, offset, length and revision exactly in the lines of their expressions, tags spelled out |
| Patterns.ScanKeywords | lib/cddb_regex.c:68-81 | The same for the keyword lines: titles are split, values captured |
| Patterns.ScanTrackTitles | lib/cddb_regex.c:76-77 | The same for the titles of tracks, with index and split title |
| Patterns.ScanDot | lib/cddb_cmd.c:851-857 | A line counts as the end exactly when it starts with a dot, and then as nothing else |
| Patterns.MatchIndexedExact | lib/cddb_regex.c:76-79 | The same for the keyword, index and value lines |
| Patterns.MatchQueryExact | lib/cddb_regex.c:82-83 | The matcher for query results accepts exactly a word, a blank, hexadecimal digits, a blank and any text, with all captured |
| Records.MergeAssociative | lib/cddb_disc.c:450-498 | Merging discs, track by track over the longer list with the source winning where it is set, is associative |
| Records.SourceWins | lib/cddb_disc.c:450-498 | The merge is the one disc that has, in every field and every track, the value of the source where that is set and the value of the destination elsewhere |
| Records.SourceWinsTrack | lib/cddb_track.c:317-341 | The same for two tracks |
| Records.MergeAbsorbs | lib/cddb_disc.c:450-498 | A disc that was copied over another is not changed by what it was copied over: copying the result over it gives the result |
| Records.CategoryNames | lib/cddb_disc.c:32-36 | Each category of the enumeration has its name |
| Records.MergeIdentity | lib/cddb_disc.c:129-152 | The new disc is neutral on both sides, so a clone is a copy into a new disc |
| Records.MergeIdempotent | lib/cddb_disc.c:450-498 | Merging a disc with itself changes nothing |
| Records.MergeCommutes | lib/cddb_disc.c:450-498 | The merge commutes exactly when the discs agree wherever both have something set |
| Discs.Disc.AddTrack | lib/cddb_disc.c:158-178 | The list stays well formed (count, numbers, links both ways, back-pointers) and has the track at its end |
| Discs.Disc.GetTrack | lib/cddb_disc.c:180-193 | Track k of the list for a k below the count, NULL from the count on, and the first track for a negative k |
| Discs.Disc.Walk | lib/cddb_disc.c:195-207 | First and next visit every track once, in order, and end with NULL |
| Discs.Disc.Clone | lib/cddb_disc.c:129-156 | A new well-formed disc with the same value, sharing no track |
| Discs.Disc.Copy | lib/cddb_disc.c:450-498 | In place, on discs that share no track, every field and track takes the value of the source where it is set and keeps its own elsewhere; the list stays well formed, old tracks in their places |
| Discs.Track.Copy | lib/cddb_track.c:317-341 | The values of the source replace those of the track where they are set; the links stay |
| Discs.Disc.SetCategoryStr | lib/cddb_disc.c:252-265 | Genre and the category of that name, or miscellaneous if there is none |
| Discs.CategoryOfUnique | lib/cddb_disc.c:252-265 | A category is found again by its name |
| Discs.UnknownIsMisc | lib/cddb_disc.c:252-265 | A name that is no category is filed under miscellaneous |
| Parser.StepIsTable | lib/cddb_cmd.c:621-866 | The switch with its fall-through does what a flat table of line effects says, for every line and every state the loop can be in, and stays within those states |
| RecordReader.Switch | lib/cddb_cmd.c:628-860 | One pass through the switch changes the linked disc and the control as the machine on values does |
| ParserRuns.RunMovesForward | lib/cddb_cmd.c:621-866 | Along every run the state only moves forward in switch order, tracks are never lost, and the counted offsets have their tracks |
| ParserRuns.OffsetLands | lib/cddb_cmd.c:636-651 | An offset line changes the offset of the track it counts up to, made if missing, and nothing else |
| ParserRuns.FailsExactly | lib/cddb_cmd.c:729-891 | A run fails exactly when some line on its way has a title or extended data for a track the disc has not; otherwise it ends in the stop state |
| ParserRuns.TwoRuns | lib/cddb_cmd.c:621-866 | Two successful runs over the same lines from any two discs take the same controls, mention the same fields, and agree in each of them |
| ParserRuns.RunKeeps | lib/cddb_cmd.c:621-866 | A run leaves every field it does not mention as it was |
| ParserRuns.ParseIndependent | lib/cddb_cmd.c:593-891 | Parsing the same lines into any two discs, when both succeed, mentions the same fields, leaves them equal, and keeps all others |
| ParserRuns.ParseTwice | lib/cddb_cmd.c:593-891 | Parsing a record again into the disc it was parsed into succeeds and changes nothing |
| ParserRuns.MoreTracksAccept | lib/cddb_cmd.c:729-841 | A disc with more tracks accepts every record that one with fewer accepts |
| Splits.DTitleRun | lib/cddb_cmd.c:669-721 | However a disc title is cut into lines, artist and title are those of the whole exactly when one piece holds the only delimiter and none comes to be after it, or there is none at all; a title is there exactly when some piece has a delimiter |
| Splits.TTitleRun | lib/cddb_cmd.c:741-799 | The same for the title of a track, which without a delimiter is a title only, in every state from which the switch falls through to the label (year and genre are optional); nothing else changes but a disc title that is completed |
| Splits.TitleOutcome | lib/cddb_cmd.c:669-721 | Whatever lines without a disc title follow, a run ends with the artist that the title lines gave, and with their title, or the artist if they had no delimiter and some line follows |
| Splits.LoneTitle | lib/cddb_cmd.c:713-719 | Over every run whose title lines have no delimiter: the artist is the whole text, and so is the title exactly when another line follows; otherwise the title stays unset |
| Splits.ExtDRun | lib/cddb_cmd.c:800-819 | Extended data of the disc is the concatenation of its lines, NULL if empty, whatever was there before, in every state from which the switch falls through to the label |
| Splits.ExtTRun | lib/cddb_cmd.c:820-847 | The same for a track, directly after the disc title, the genre, the titles, the extended data of the disc or that of another track |
| Endings.DotStops | lib/cddb_cmd.c:851-860 | A line that starts with a dot ends the record exactly in the states from the complete disc title on |
| Endings.DotEndsRun | lib/cddb_cmd.c:593-891 | Any lines that bring the parser there, a dot, and whatever follows: the run succeeds with the disc those lines made, and reads nothing behind the dot |
| Endings.RecordEnds | lib/cddb_cmd.c:593-891 | The record of any disc, a dot and any further lines: parsing restores the disc and takes the lines of the record and one more |
| Endings.RecordOnStream | lib/cddb_cmd.c:611-626 | The same on a stream: what follows the dot is left to be read, and the record with its dot is what is saved |
| Writer.WriteData | lib/cddb_cmd.c:1352-1427 | As long as every part starts inside the buffer, and only then does the writer stay in it, the buffer is left as printing each part at the position given by the declared lengths, cut where the room ends, leaves it, and the returned size is their sum |
| WriterSizes.SizesExact | lib/cddb_cmd.c:1362-1426 | Every declared length is the printed length exactly when all numbers fit their columns, the year is 0 or has four digits, and there are at most 20 tracks |
| Entries.ExactFile | lib/cddb_cmd.c:1352-1427 | The bytes written are the lines of the record, without gap or overwrite, exactly in that case and with room for a zero behind them, whatever was in the buffer |
| Entries.EntrySays | lib/cddb_cmd.c:1362-1388 | The comment lines name the client, then its version, and `DISCID` the identifier; a disc without a year has an empty one |
| Entries.LostLine | lib/cddb_cmd.c:1394-1404 | With more than 20 tracks the line after the title of track 20 reads as empty |
| Entries.FileReadsBack | lib/cddb_cmd.c:1352-1427 | Reading the file gives the lines of the record exactly when all numbers fit their columns and there are at most 20 tracks |
| RoundTrip.ParseLines | lib/cddb_cmd.c:593-891 | Parsing the lines that the writer prints into a disc without tracks succeeds, and every field is the one that was written, titles as they split |
| RoundTrip.RoundTrip | lib/cddb_cmd.c:1352-1427 | The disc comes back (category name for a missing genre, empty for absent extended data) exactly when all its titles split back |
| ManyTracks.FileParses | lib/cddb_cmd.c:1389-1424 | With 21 to 30 tracks, reading the file gives everything but the extended data of the disc and what tracks from 21 on have besides their offsets |
| ManyTracks.FileRoundTrip | lib/cddb_cmd.c:1352-1427 | Through the file, a disc with at most 30 tracks comes back exactly when its titles split back and it has at most 20 tracks, or 21 and the extended data of the disc that it is read into |
| Streams.ReplayExact | lib/cddb_cmd.c:356-383 | Lines taken from any stream and written with newlines are read back as the same lines exactly when each is at most the buffer size less 2 |
| Streams.SavedLines | lib/cddb_cmd.c:623-626 | Clean lines short enough are read back one by one |
| Streams.RestSaved | lib/cddb_cmd.c:356-383 | After as many lines as were saved, the stream stands behind them |
| Streams.ReturnedLine | lib/cddb_cmd.c:369-375 | A carriage return before the newline is stripped too |
| Client.Conn.ReadLine | lib/cddb_cmd.c:356-383 | The next line of the cache file or the server with its line end stripped, or NULL at the end, and what is left to read |
| Cache.FileNamesDiffer | lib/cddb_cmd.c:116-134 | Distinct pairs of category and identifier never share a file name |
| Cache.NameParts | lib/cddb_cmd.c:127-128 | The name is the cache directory, the category and the eight digits, with slashes between them |
| Cache.CacheFileName | lib/cddb_cmd.c:116-134 | The buffer that is reserved holds the whole name |
| Cache.RunUsed | lib/cddb_cmd.c:621-866 | A successful run depends only on the lines it reads |
| Cache.CacheReplay | lib/cddb_cmd.c:611-626 | A record saved line by line while it was parsed parses again, from the cache, to the same result, and into any other disc to the same mentioned fields |
| Client.Conn.ParseRecord | lib/cddb_cmd.c:593-891 | The disc, the stream and the success value are those of the record machine, which `Endings.RecordOnStream` spells out for records with their dot, and the lines that were read are saved exactly when caching is on and no entry existed |
| QueryCache.LookupAgrees | lib/cddb_cmd.c:223-288 | With a right table, the query finds what the search over all categories would find, and an entry that exists, for every identifier but 0, and for 0 under the stated condition only |
| QueryCache.RunRight | lib/cddb_cmd.c:223-288 | Every run of queries and stored entries keeps each slot empty or holding an identifier of that slot whose entry exists |
| QueryCache.RunAgrees | lib/cddb_cmd.c:239-288 | After every run from the zero table, the query agrees with the search for every identifier a query can ask for |
| QueryCache.LookupRemembers | lib/cddb_cmd.c:239-288 | An answer that was found is given again from the slot, whatever the files are then |
| QueryCache.HashIsDigitSum | lib/cddb_cmd.c:236-237 | The slot of a disc is the digit sum that its identifier holds |
| QueryCache.FourAreMarked | lib/cddb_cmd.c:223-234 | The initialisation marks slots 0 to 3 and leaves the other 252 as they were |
| Client.Conn.constructor | lib/cddb_cmd.c:53-56 | A connection starts with the zero table, which is right for any files |
| Client.Conn.CacheQueryDisc | lib/cddb_cmd.c:268-288 | The first category with an entry is found and remembered |
| Client.Conn.CacheQuery | lib/cddb_cmd.c:239-266 | In place, what `Lookup` says; so it succeeds exactly when an entry is cached, and returns a category that has it |
| Client.Conn.CacheRead | lib/cddb_cmd.c:184-221 | Succeeds exactly when caching is on, the entry exists and its record is accepted; files and server stay untouched |
| Client.Conn.Read | lib/cddb_cmd.c:906-967 | The cache answers if it can, without the server; in the cache-only mode nothing is ever sent; otherwise the server's record is parsed and saved if no entry existed |
| Protocol.ResponseReadsBack | lib/cddb_cmd.c:324-354 | A code and a message with a space between them are taken apart again |
| Protocol.ScanIntExact | lib/cddb_cmd.c:336-340 | The code of a response is found exactly where white space, a sign and digits begin the line |
| Protocol.MalformedIsError | lib/cddb_cmd.c:328-347 | A line without a number or without a space, and the end of the stream, give the code -1 |
| Protocol.DiscidReadsBack | lib/cddb_cmd.c:985-987 | An identifier that was printed is read again |
| Protocol.DiscidIsLow | lib/cddb_cmd.c:985-987 | Of a longer number the last eight digits count, unless it is beyond the range of `strtoll`; then all bits are set |
| Commands.QueryReadsBack | lib/cddb_cmd.c:34-44 | A reader that takes the query apart word by word finds the identifier, the number of tracks, every offset in track order, and the length, for every disc |
| Commands.ReadReadsBack | lib/cddb_cmd.c:34-44 | A read command names the category and then the identifier |
| Commands.WriteReadsBack | lib/cddb_cmd.c:34-44 | So does a write command |
| Client.Conn.ParseQueryData | lib/cddb_cmd.c:969-1005 | A match fills category, identifier, title and (if given) artist in, as `Answers.FoundFills` spells out, and a line that is no match leaves the disc alone |
| Answers.FoundFills | lib/cddb_cmd.c:969-1005 | A match printed for a category, an identifier, an artist and a title fills in exactly those if the title splits back, and only then |
| Client.Conn.HandleResponseList | lib/cddb_cmd.c:1007-1076 | What each response leaves: with a list, a filled clone for each match that it begins with; if it is not empty and all of it is matches, the first one merged into the caller's disc, their number, and the iterator on the first; otherwise a failure, the disc as it was and the iterator too; without a list no results, and the disc filled by a single match only |
| Answers.ExactAnswer | lib/cddb_cmd.c:1015-1021 | After a 200 response for a printed match, the disc is that match exactly when the title splits back, the count is 1, there are no results, and the stream stands behind the line |
| Answers.ListAnswer | lib/cddb_cmd.c:1022-1050 | After a 210 or 211 response, n printed matches and a dot, there are n results that say what was printed, the first is merged into the disc, and the stream stands behind the dot; an empty list is a failure |
| Answers.OtherAnswer | lib/cddb_cmd.c:1051-1068 | Code 202 counts no match, every other code is a failure, and the disc stays as it is |
| Answers.MalformedAnswer | lib/cddb_cmd.c:1012-1014 | A line that is no response, and the end of the stream, are failures |
| Client.Conn.Query | lib/cddb_cmd.c:1078-1142 | With the identifier computed anew, a disc without identifier, length or tracks is refused; the cache answers exactly when it has an entry in any category; in the cache-only mode the answer is final; otherwise the query is sent if all offsets are known and fit the buffer, and answered as its response says; the iterator dangles afterwards exactly when it was not past the end and no list was accepted |
| Answers.Question | lib/cddb_cmd.c:1098-1142 | A query is sent exactly when the cache may not or cannot answer, the mode and the connection allow it, and all offsets are known and fit the buffer; what is sent asks for the identifier, the offsets in track order and the length |
| Client.Conn.ListedIsStepped | lib/cddb_cmd.c:1031-1049 | After a list of n matches the count is n and the caller is at the first of n results, as the walk over them requires |
| Client.Conn.QueryNext | lib/cddb_cmd.c:1144-1160 | The next result is merged into the disc, or there is none and the disc stays as it is |
| Client.Conn.NextAll | lib/cddb_cmd.c:1144-1160 | With n results, exactly n - 1 calls succeed, and the disc is then the original with all results merged in order |
| Client.Conn.NextFails | lib/cddb_cmd.c:1144-1160 | Past the end every further call fails and changes nothing |
| Protocol.LatestMatch | lib/cddb_cmd.c:1031-1047 | After stepping to a match the caller holds exactly that match if and only if nothing it leaves open was set by an earlier one |
| Client.Conn.Write | lib/cddb_cmd.c:1429-1561 | An incomplete disc is refused; otherwise the printed entry becomes the cache file unless caching is off, and is submitted unless the mode is cache-only, succeeding on 320 and 200 |
| Client.Conn.RefusedExactly | lib/cddb_cmd.c:1438-1463 | An entry is refused exactly for the default user or host, or a missing identifier, category, length, track, artist or title, or a track without offset or title |
| Sessions.SameTocSameId | lib/cddb_disc.c:500-532 | The identifier depends on offsets and length only |
| Sessions.FindIt | lib/cddb_cmd.c:1078-1142 | Any disc with the offsets and the length of a cached entry, whatever that entry looks like, is found in the cache, without the server |
| Sessions.WriteFindRead | lib/cddb_cmd.c:1471-1488 | With caching on, every entry that was written is found by every disc with the same offsets and length; if it has at most 20 tracks and numbers in their columns, reading its category restores the record; in the cache-only mode nothing is sent |
| Sessions.ReadBoth | lib/cddb_cmd.c:927-967 | Two records read in a row: each disc is the one that was sent, the requests name them, and the rest of the stream is untouched |
| Sessions.ReadTwice | lib/cddb_cmd.c:906-925 | A record read from the server is read the second time from the cache, into an equal disc, with the same outcome and without the server |
| DiscId.CalcDiscid | lib/cddb_disc.c:500-532 | The digit-sum loop over the linked tracks stores the packed identifier |
| DiscId.IdUnpacks | lib/cddb_disc.c:500-532 | Digit sum modulo 255, seconds and track count can be read back from the identifier exactly when the seconds fit 16 bits and the count fits 8 |
| DiscId.IdIsCddbDiscid | doc/freedb.howto.txt:644-681 | The identifier is the one of Appendix A, for every table of contents |
| CArith.OrFields | lib/cddb_disc.c:525-527 | The shifted or of fields that fit is their sum |
| CArith.DivTruncates | include/cddb/cddb_disc.h:41 | Frames are converted to seconds by a division that truncates toward zero |
| CArith.WrapIsModular | lib/cddb_disc.c:525-527 | The identifier keeps the low 32 bits, also of a negative playing time |
| TrackTimes.GetLength | lib/cddb_track.c:163-194 | The stored length, or else the one worked out from the next track or from the end of the disc, which is then stored |
| TrackTimes.LengthStays | lib/cddb_track.c:163-194 | Once a length was reported, no change of any offsets or of the disc length changes it |
| TrackTimes.LengthSets | lib/cddb_track.c:196-217 | Setting a length gives a track without offset the end of the track before it, or frame 150, and moves no other |
| TrackTimes.TotalLength | lib/cddb_track.c:163-194 | Asking every track for its length sums to `LengthSum`, which `LengthsAddUp` is about, and each length is then remembered |
| TrackTimes.LengthsAddUp | lib/cddb_track.c:163-194 | The lengths of all tracks add up to the seconds in the identifier less one for every carry, so to at most those and at least those less n - 1 |
| TrackTimes.Create | examples/cd_access.c:113-158 | The loop that builds a disc from offsets or times |
| TrackTimes.TimesGiveOffsets | lib/cddb_track.c:196-217 | From times, track i starts at 150 plus 75 times the sum of the times before it |
| TrackTimes.TimesReported | examples/cd_access.c:129-155 | A disc made from times reports each of them, whatever its length is |
| TrackTimes.TimesComeBack | examples/cd_access.c:129-155 | A disc made from those offsets reports the time of a track exactly when that time is not zero, the last track included when the disc length is 2 plus all times |
| ResultList.List.Append | lib/ll.c:137-155 | The list stays well formed with the element at its end |
| ResultList.List.Get | lib/ll.c:165-179 | Element k for a valid k, NULL otherwise |
| ResultList.List.Walk | lib/ll.c:181-199 | First and next meet the data of every element once, in order, and then keep returning NULL |
| ResultList.List.Next | lib/ll.c:190-199 | From element k, or past the end, the iterator goes one further, or stays past the end |
| ResultList.List.Flush | lib/ll.c:107-119 | Every element is freed, the iterator is left where it was, and so dangles exactly when it was not past the end |
| ResultList.List.SafeIsAt | lib/ll.c:190-199 | In every well-formed list the iterator stands on an element or past the end exactly when it does not dangle |
| Search.NamesInherited | lib/cddb_cmd.c:1217-1243 | Each search result has the category and identifier of its own link, and the names of the nearest link up to it that shows any |
| Search.ResultSays | lib/cddb_cmd.c:1217-1243 | A result has the category, the identifier and the names that its link shows, artist and title in their places; a duplicate repeats the names of the result before it |
| Search.ParseSearchData | lib/cddb_cmd.c:1200-1246 | The recursion on the last link of a line appends the results of a scan from left to right |
| Search.SearchPage | lib/cddb_cmd.c:1322-1330 | Carried from line to line, the results are those of one scan over the links of the whole page |
| Search.Search | lib/cddb_cmd.c:1291-1344 | The results are those of the page, the first one is merged into the caller's disc and the iterator is on it; it dangles exactly when nothing was found and it was not past the end |
| Base64.DecodeEncode | lib/cddb_util.c:73-112 | A decoder of section 4 of RFC 4648 inverts the encoding of every seven-bit string |
| Base64.EncodeInto | lib/cddb_util.c:79-112 | The loop writes the encoding, of length 4 times n / 3 rounded up, and a zero, and touches nothing behind |
| Base64.AlphabetIsLetters | lib/cddb_util.c:73-77 | The table of the source is the Base64 alphabet |
| Base64.BufferFits | lib/cddb_conn.c:395-401 | Encoding and terminator fit the doubled buffer exactly when the text is not a single character |
| Base64.SetHttpProxyAuth | lib/cddb_conn.c:383-407 | The stored credentials decode to user, colon and password |
| Witnesses.TwentyOneTracks | lib/cddb_cmd.c:1394-1404 | A disc with 21 tracks of which the `EXTD` line reads as empty |
| Witnesses.YearOfThreeDigits | lib/cddb_cmd.c:1380-1384 | A disc of the year 999 of which the file does not read back |
| Witnesses.TitleAtTheEnd | lib/cddb_cmd.c:713-719 | A record ending in `DTITLE=x` that parses to an artist and no title |
| Witnesses.ZeroIsFound | lib/cddb_cmd.c:223-266 | The identifier 0 found in an empty cache |
| Witnesses.FullLine | lib/cddb_cmd.c:356-383 | A line that fills its buffer and is replayed as two |
| Witnesses.EarlierArtist | lib/cddb_cmd.c:1144-1160 | Two matches of which the second gets the artist of the first |
| Witnesses.StaleIterator | lib/cddb_cmd.c:1078-1160 | A query that gets a list and then a query for a disc without tracks, which leave the iterator on a freed element |
| Witnesses.ColonDoesNotFit | lib/cddb_conn.c:395-401 | The single colon does not fit the doubled buffer |
| Witnesses.CapitalsAndTabs | lib/cddb_regex.c:82-83 | A match with tabs and capitals is read as one with spaces and small letters |

## Left out

- Client.Conn.Write: requires that the declared lengths add up to at most 4096, because beyond that the source, which does not check it, uses memory behind its buffer (`Writer.Inside`).
- Client.Conn.QueryNext: requires that the iterator is in the list or past its end; exactly otherwise the source follows a freed element (`ResultList.List.SafeIsAt`).
- ResultList.List.Next: the same.
- ManyTracks.FileRoundTrip: is about at most 30 tracks; from track 30 on the file holds bytes that were in the buffer before, and `Entries.LostLine` says what is lost in any case.
- ManyTracks.FileParses: the same.
- Sessions.WriteFindRead: restores the record under the condition of `Entries.FileReadsBack`; what else comes back is in `ManyTracks.FileRoundTrip`.
- Answers.ListAnswer: is about matches whose titles split back from their artists; what the others become is in `Answers.FoundFills` and `Text.SplitJoin`.
- Sessions.ReadBoth: is about caching turned off; what is saved otherwise is in `Client.Conn.Read` and `Endings.RecordOnStream`.
- Base64.SetHttpProxyAuth: requires that user name and password are not both empty, because the source's buffer is too small then (`Base64.BufferFits`).
- RoundTrip.ParseLines: is about a disc without tracks; reading into a disc that holds more is covered by `ParserRuns.ParseIndependent`.
- Search.ParseSearchData: takes a line as its links in document order; the expression that finds them in HTML text is not part of this model.
- Numbers above INT_MAX in a record: `atoi` leaves its result open there; the model keeps the number.
- Bytes from 128 on in Base64: a signed `char` makes the source shift negative numbers.
- HTTP: command URLs, headers, proxies and closing the connection after a response; only the plain CDDB protocol is modelled.
- Sockets, timeouts, name resolution and the handshake: the server is a flag that says whether it can be reached, and the bytes it is going to send; reconnecting after an error response is not modelled.
- Character set conversion: none is configured, so it is the identity.
- The regular expression engine: each expression is a matcher, proved or written to accept its language.
- Memory: failing allocations, freeing and leaks.
- Error numbers, logging, error strings, plain setters and getters, printing and the command line.
- Album queries, the sites command and the text of the search command: they add easy members only.
- Failing `mkdir` and `fopen`, files changed by others, and changing the cache directory or the buffer size.
- Output buffering of the cache file: a line counts as written at once.
- The query table is one global array in the source, shared by all connections; here it belongs to one connection.
