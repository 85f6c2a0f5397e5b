# Neuralynx header parser, modelled in Dafny

Every Neuralynx data file starts with a 16 KiB text header. `NlxHeader` turns that header into a
property table, an ordered dictionary that it fills and normalises in place:

1. `read_properties` walks a table of 42 rules. Each rule gives a key pattern, a canonical name
   and a converter. Every `-key value` line that matches is stored, converted, under its name.
2. `convert_channel_ids_names`, `setBitToMicroVolt` and `setInputRanges` turn the texts of the
   channel ids, the channel names, the conversion factors and the input ranges into lists with
   one entry per channel. A single entry is replicated across the channels, and the lengths are
   checked.
3. `setApplicationAndVersion` finds the recording application's name and version through a
   four-way cascade. The version is ordered as PEP 440 orders versions.
4. `readTimeDate` picks one of five header dialects from the application's name and version
   bands; a sixth, `bml`, is defined but never picked. With that dialect's patterns and date
   formats it reads the opening time and, where the dialect has one, the closing time.
5. `type_of_recording` classifies the acquisition lineage that produced the file. It is a
   first-match-wins cascade over the table.

The model has one module per stage:
- `Rules`: the rule table, the `-key value` matcher and the assignment fold.
- `Channels`: the per-channel steps.
- `Application` and `Pep440`: the name and version, and the version type.
- `Dialects`: the dialect table, its selection and the timestamps.
- `Classifier`: the acquisition type.

They rest on character classes and tokenising (`Text`), Python's `int()` (`Numbers`), and the
value and error types (`Values`).

Each step is a function from the table before it to a `Step`: the table after it, and what the
step returned or raised. Every Python exception becomes an `Error` value, and keys the step wrote
before raising stay written. `NlxHeader.Header` is the object itself. It is a class with the table
as a `map` field. Its methods carry the source's statement-by-statement updates, including the
nested loops of `read_properties`, and each is proved equal to its step function. `Load` chains
the steps as `__init__` does, and `HeaderInvariants` states what a header that parsed holds.

Python's regular expressions are not interpreted. Each pattern is matched by hand: a greedy run of
a character class, followed by a character outside that class, cannot backtrack into another
match. `str.isspace`, `\w` and `\d` are modelled for Latin-1 text, which is what the decoded
header is. Number parsing (`float`) and date parsing (`datetime.strptime`) are library code, so
they are parameters: the `parseFloat` and `strptime` constants of the header.

## Model

| member | source | states |
|---|---|---|
| NlxHeader.HeaderText | neo/rawio/neuralynxrawio/nlxheader.py:89-91 | the header text is at most `HEADER_SIZE` (2**14) characters, has no NUL at either end, and every character is Latin-1 |
| NlxHeader.DropLeadingNul | neo/rawio/neuralynxrawio/nlxheader.py:91 | `strip(b"\x00")`, leading half: the result is a suffix that does not start with NUL, and only NUL bytes were removed |
| NlxHeader.DropTrailingNul | neo/rawio/neuralynxrawio/nlxheader.py:91 | `strip(b"\x00")`, trailing half: the result is a prefix that does not end with NUL, and only NUL bytes were removed |
| NlxHeader.Latin1 | neo/rawio/neuralynxrawio/nlxheader.py:91 | `decode("latin-1")` maps each byte to the character with the same code |
| NlxHeader.HeaderTextOfPadded | neo/rawio/neuralynxrawio/nlxheader.py:89-91 | a Latin-1 header padded with NUL bytes to 16 KiB reads back as exactly that text, whatever data follows |
| Rules.ToBoolean | neo/rawio/neuralynxrawio/nlxheader.py:25-31 | `_to_bool` is true exactly for `"True"` and false exactly for `"False"`, and raises with the text on anything else |
| Rules.ConvertingRules | neo/rawio/neuralynxrawio/nlxheader.py:36-79 | the only rules that convert their value store under `sampling_rate`, `input_inverted` or, under its own key, `WaveformLength` |
| Rules.ConvertingPositions | neo/rawio/neuralynxrawio/nlxheader.py:36-79 | exactly three rules of the table convert their value: the 7th, the 13th and the 25th |
| Rules.ConverterOfEach | neo/rawio/neuralynxrawio/nlxheader.py:43-61 | `SamplingFrequency` is stored as `sampling_rate` through `float`, `InputInverted` as `input_inverted` through `_to_bool`, and `WaveformLength` under its own key through `int` |
| Rules.KeyAt | neo/rawio/neuralynxrawio/nlxheader.py:115 | the key group of `-(?P<name>k1)` matches the literal key, or a `Feature \w+ \d+` name |
| Rules.FeatureKeyLength | neo/rawio/neuralynxrawio/nlxheader.py:67 | what the greedy `Feature \w+ \d+` key consumes is a feature name |
| Rules.WordSpaceNumberPrefix | neo/rawio/neuralynxrawio/nlxheader.py:67 | a greedy word run, one space and a greedy digit run spell `\w+ \d+` |
| Rules.MatchAt | neo/rawio/neuralynxrawio/nlxheader.py:115 | a match starts at a `-` followed by the key, and its name group is the literal key or a `Feature \w+ \d+` name |
| Rules.TailAtValue | neo/rawio/neuralynxrawio/nlxheader.py:115 | after `\s+`, the value group is the longest run of `[\S ]` characters, and it ends the match |
| Rules.MatchAtValue | neo/rawio/neuralynxrawio/nlxheader.py:115 | the value of a match is the longest run of `[\S ]` characters that ends the match |
| Rules.FindFrom | neo/rawio/neuralynxrawio/nlxheader.py:116 | `re.findall` yields matches left to right that do not overlap |
| Rules.FindFromSound | neo/rawio/neuralynxrawio/nlxheader.py:116 | every match found is a match of the pattern at its position |
| Rules.FindFromComplete | neo/rawio/neuralynxrawio/nlxheader.py:116 | every position where the pattern matches lies within a found match, so none is skipped |
| Rules.ApplyAppend | neo/rawio/neuralynxrawio/nlxheader.py:114-125 | two runs of assignments compose, and a run that raises ends the parse |
| Rules.ApplyOnlyNamed | neo/rawio/neuralynxrawio/nlxheader.py:125 | the parse never touches a key that no assignment names |
| Rules.ApplyLastWins | neo/rawio/neuralynxrawio/nlxheader.py:114-125 | after a successful parse each name holds the converted value of its last assignment in rule-then-match order |
| Rules.ApplyFirstError | neo/rawio/neuralynxrawio/nlxheader.py:123-124 | a parse that raises raises the error of the first conversion that fails, and all earlier ones succeeded |
| Rules.ApplyNoError | neo/rawio/neuralynxrawio/nlxheader.py:123-124 | a parse that succeeds converted every value it assigned |
| Rules.AssignmentsFromRules | neo/rawio/neuralynxrawio/nlxheader.py:114-122 | each assignment comes from a rule and one of its matches, with the right-stripped value |
| Rules.AssignmentOfNamed | neo/rawio/neuralynxrawio/nlxheader.py:118-121 | an assignment is named by the rule's canonical name, or by the matched key when that is empty |
| Rules.KeysNamedByRules | neo/rawio/neuralynxrawio/nlxheader.py:114-125 | every key of the parsed table is named by some rule, so keys that match no rule never appear |
| Rules.ApplyKeepsText | neo/rawio/neuralynxrawio/nlxheader.py:123-125 | a key whose assignments never convert holds text |
| Rules.ParsedValuesText | neo/rawio/neuralynxrawio/nlxheader.py:36-79 | after parsing the header table, every key other than the three converted ones holds text |
| Text.RStripSpaces | neo/rawio/neuralynxrawio/nlxheader.py:122 | `rstrip(" ")` removes the trailing spaces and only those |
| Text.Run | neo/rawio/neuralynxrawio/nlxheader.py:115 | a greedy class run stops at the end of the text or before a character outside the class |
| Text.RunChars | neo/rawio/neuralynxrawio/nlxheader.py:115 | every character a greedy class run consumes is in the class |
| Text.Tokens | neo/rawio/neuralynxrawio/nlxheader.py:187 | `re.findall(r"\S+")` yields non-empty tokens made of the class |
| Text.TokensOfJoin | neo/rawio/neuralynxrawio/nlxheader.py:187 | tokenising words joined by single spaces gives the words back |
| Numbers.IntToStringRoundTrip | neo/rawio/neuralynxrawio/nlxheader.py:188 | `int()` reads back every integer's decimal rendering |
| Numbers.NatToStringRoundTrip | neo/rawio/neuralynxrawio/nlxheader.py:188 | the digits of a rendered natural number have its value |
| Numbers.ParseDigits | neo/rawio/neuralynxrawio/nlxheader.py:188 | `int()` reads a non-empty run of digits as its decimal value |
| Numbers.ParseNegativeDigits | neo/rawio/neuralynxrawio/nlxheader.py:188 | `int()` reads a minus sign followed by digits as the negated decimal value |
| Values.IntsOf | neo/rawio/neuralynxrawio/nlxheader.py:188 | `[int(c) for c in ts]` succeeds exactly when every text is an integer, holds their values in order, and otherwise raises at the first text that is not |
| Values.ConvertAll | neo/rawio/neuralynxrawio/nlxheader.py:143 | a comprehension over a conversion succeeds exactly when every element converts, elementwise |
| Values.FirstRejected | neo/rawio/neuralynxrawio/nlxheader.py:143 | the element a comprehension raises on is the first one rejected |
| Values.Repeat | neo/rawio/neuralynxrawio/nlxheader.py:131 | `[x] * n` has length `n` and every entry is `x` |
| Channels.ConvertIdsNames | neo/rawio/neuralynxrawio/nlxheader.py:176-204 | only the ids and names change; on success the ids are a list, and the names have the same length as the ids |
| Channels.ConvertIdsNamesIds | neo/rawio/neuralynxrawio/nlxheader.py:186-191 | the ids become the integers of their tokens, or `["unknown"]`, and the returned count is the number of tokens, 0 without ids |
| Channels.ConvertIdsNamesNames | neo/rawio/neuralynxrawio/nlxheader.py:194-202 | one name is repeated per id; absent names become `"unknown"` per id; several names stay text whose character length must equal the number of ids |
| Channels.ConvertIdsNamesMismatchIff | neo/rawio/neuralynxrawio/nlxheader.py:194-200 | with integer ids, the names raise the length mismatch exactly when they are text with other than one token and a character length different from the number of ids |
| Channels.ChannelCount | neo/rawio/neuralynxrawio/nlxheader.py:141 | `len(self["channel_ids"])` exists exactly when the ids are present and have a length |
| Channels.BitToMicroVolt | neo/rawio/neuralynxrawio/nlxheader.py:137-145 | only the factors change; absent factors change nothing; on success the factors are a list with one entry per channel id |
| Channels.BitToMicroVoltMismatchIff | neo/rawio/neuralynxrawio/nlxheader.py:140-145 | with numeric tokens, the length check fails exactly when there is neither one factor nor one per id |
| Channels.BitToMicroVoltValues | neo/rawio/neuralynxrawio/nlxheader.py:137-145 | on success every channel id gets one factor in microvolts: a single factor is replicated to every id, and otherwise the k-th id gets the k-th factor |
| Channels.MicroVolts | neo/rawio/neuralynxrawio/nlxheader.py:143 | entry k is the k-th factor times 10^6 |
| Channels.Ranges | neo/rawio/neuralynxrawio/nlxheader.py:130-133 | one range token is repeated `count` times; otherwise there is one range per token |
| Channels.InputRanges | neo/rawio/neuralynxrawio/nlxheader.py:127-135 | only the ranges change; absent ranges change nothing; on success there are exactly `count` ranges |
| Channels.InputRangesMismatchIff | neo/rawio/neuralynxrawio/nlxheader.py:129-135 | with integer tokens, the check fails exactly when there is neither one range nor `count` of them, and one range is repeated `count` times |
| Application.AppMatchAt | neo/rawio/neuralynxrawio/nlxheader.py:158-159 | a match of `(\S*) "([\S ]*)"` ends at a quote, and on one line no quote follows it |
| Application.AppMatchAtGroups | neo/rawio/neuralynxrawio/nlxheader.py:158-159 | the name group is the text from the start up to a space and a `"`, and holds no whitespace; the version group is the `[\S ]` text between that `"` and the `"` that ends the match |
| Application.LastQuote | neo/rawio/neuralynxrawio/nlxheader.py:158 | greedy `[\S ]*"` stops at the last quote of the line |
| Application.FindAppFrom | neo/rawio/neuralynxrawio/nlxheader.py:159 | the matches found lie within the text, in order and without overlapping |
| Application.FindAppSound | neo/rawio/neuralynxrawio/nlxheader.py:159 | every match found is the pattern's match at its start |
| Application.FindAppComplete | neo/rawio/neuralynxrawio/nlxheader.py:159 | no position where the pattern matches is skipped: each lies inside a match found |
| Application.NoQuoteNoMatch | neo/rawio/neuralynxrawio/nlxheader.py:159 | text without a quote has no match |
| Application.AtMostOneOnLine | neo/rawio/neuralynxrawio/nlxheader.py:159-160 | a one-line name has at most one match |
| Application.NameAndVersion | neo/rawio/neuralynxrawio/nlxheader.py:157-161 | `N "V"` has exactly one match, with name `N` and version `V` |
| Application.SetVersion | neo/rawio/neuralynxrawio/nlxheader.py:171-174 | only the version changes; it is set exactly when the text, with ` Development` replaced by `.dev0`, is a version |
| Application.ApplicationAndVersion | neo/rawio/neuralynxrawio/nlxheader.py:147-174 | only the name and version change, and on success both are set |
| Application.CheetahRevBranch | neo/rawio/neuralynxrawio/nlxheader.py:152-155 | `CheetahRev` together with `ApplicationName` raises; alone it names Cheetah and gives the version text |
| Application.ApplicationNameBranch | neo/rawio/neuralynxrawio/nlxheader.py:157-161 | `N "V"` sets the name `N`, and succeeds exactly when `V` is a version |
| Application.ApplicationNameOnLine | neo/rawio/neuralynxrawio/nlxheader.py:159-160 | a one-line name without a match raises and changes nothing |
| Application.DefaultBranches | neo/rawio/neuralynxrawio/nlxheader.py:163-169 | with `NLX_Base_Class_Type` the result is BML 2.0, otherwise Neuraview 2, and both succeed |
| Application.DefaultVersionsEqual | neo/rawio/neuralynxrawio/nlxheader.py:165-169 | the two default versions 2.0 and 2 compare equal |
| Application.DefaultVersionTwo | neo/rawio/neuralynxrawio/nlxheader.py:169 | `"2"` parses to the release `[2]` |
| Application.DefaultVersionTwoZero | neo/rawio/neuralynxrawio/nlxheader.py:165 | `"2.0"` parses to the release `[2, 0]` |
| Application.DevelopmentBuildBranch | neo/rawio/neuralynxrawio/nlxheader.py:171-174 | `CheetahRev` of `X Development` gives the version `X.dev0`, which sorts below `X` |
| Pep440.Parse | neo/rawio/neuralynxrawio/nlxheader.py:174 | a version parsed from text is well formed |
| Pep440.ParseToString | neo/rawio/neuralynxrawio/nlxheader.py:174 | parsing a rendered version gives the version back |
| Pep440.CompareReleaseZeroPadded | neo/rawio/neuralynxrawio/nlxheader.py:331-341 | releases compare equal exactly when their zero-padded segments agree |
| Pep440.CompareReleaseFirstDifference | neo/rawio/neuralynxrawio/nlxheader.py:331-341 | a release sorts below another exactly at the first zero-padded segment where they differ |
| Pep440.CompareAntisymmetric | neo/rawio/neuralynxrawio/nlxheader.py:331-341 | swapping the operands negates the comparison |
| Pep440.CompareTransitive | neo/rawio/neuralynxrawio/nlxheader.py:331-341 | the order is transitive, and strictly so when either step is strict |
| Pep440.TrailingZeroEqual | neo/rawio/neuralynxrawio/nlxheader.py:165-169 | `X` equals `X.0` |
| Pep440.DevPrecedesRelease | neo/rawio/neuralynxrawio/nlxheader.py:171-174 | `X.devN` sorts below `X`, and development releases sort by their numbers |
| Pep440.DevelopmentBuildPrecedesRelease | neo/rawio/neuralynxrawio/nlxheader.py:171-174 | `X Development` becomes `X.dev0`, which sorts below `X` |
| Dialects.MiddlesStartWithSpace | neo/rawio/neuralynxrawio/nlxheader.py:214-320 | in every dialect the literal between date and time starts with a space, so the date run is forced to be greedy |
| Dialects.DateAt | neo/rawio/neuralynxrawio/nlxheader.py:359 | a date pattern captures a non-empty date made of non-whitespace characters and a non-empty time |
| Dialects.DateAtOf | neo/rawio/neuralynxrawio/nlxheader.py:359-365 | text laid out as prefix, date, middle and time is matched, and captures exactly that date and time |
| Dialects.SearchFrom | neo/rawio/neuralynxrawio/nlxheader.py:359 | `re.search` finds a match exactly when the pattern matches somewhere, and then at the leftmost such position |
| Dialects.Select | neo/rawio/neuralynxrawio/nlxheader.py:329-356 | Cheetah takes the dialect of its version band; BML takes `inHeader`, Neuraview `neuraview2`, Pegasus and any other name `inProps`, with version 2 ("NA" and name "Unknown" for other names); it fails only without a name, or for Cheetah without a version; `bml` is never chosen |
| Dialects.CheetahBands | neo/rawio/neuralynxrawio/nlxheader.py:330-343 | Cheetah versions up to 2, and those above 5.4.0 up to 5.6.4 except 5.6.0, use `bv5.6.4`; those above 2 and below 5, and 5.6.0, use `inHeader`; 5 to 5.4.0 use `v5.4.0`; above 5.6.4 use `inProps`, each as an if-and-only-if |
| Dialects.Cheetah560 | neo/rawio/neuralynxrawio/nlxheader.py:338-339 | version 5.6.0 takes `inHeader`, not `v5.4.0` |
| Dialects.NotLe | neo/rawio/neuralynxrawio/nlxheader.py:331-341 | a failed `<=` is the reverse `<`, and a failed `<` the reverse `<=` |
| Dialects.BandLimits | neo/rawio/neuralynxrawio/nlxheader.py:331-341 | the band limits are ordered 2 < 5 < 5.4.0 < 5.6.0 < 5.6.4 |
| Dialects.OpenedValue | neo/rawio/neuralynxrawio/nlxheader.py:365-376 | the opening time is parsed with the first format, else with the second one if the dialect has it, and is `None` exactly when neither parses |
| Dialects.ClosedValue | neo/rawio/neuralynxrawio/nlxheader.py:386-393 | the closing time is a time exactly when the first format parses, and `None` otherwise |
| Dialects.ReadTimeDate | neo/rawio/neuralynxrawio/nlxheader.py:322-393 | only the two times change, and on success the opening time is set |
| Dialects.ReadClosing | neo/rawio/neuralynxrawio/nlxheader.py:378-393 | once the opening time is stored only the closing time changes; the step raises, naming the application and version, exactly when the dialect has a closing pattern that matches nowhere; when it matches, the closing time stored is its value under the first format |
| Dialects.NoOpeningTime | neo/rawio/neuralynxrawio/nlxheader.py:359-363 | without an opening match anywhere, the step raises with the application and version and changes nothing |
| Dialects.OpeningRecorded | neo/rawio/neuralynxrawio/nlxheader.py:359-385 | once an opening match is found its parsed value is stored whatever happens to the closing time, and the only error left is a missing closing time |
| Dialects.ClosingRecorded | neo/rawio/neuralynxrawio/nlxheader.py:378-393 | with a closing pattern that matches, the step succeeds and stores the closing time parsed with the first format only, else `None` |
| Dialects.UnparsedOpeningTime | neo/rawio/neuralynxrawio/nlxheader.py:359-376 | an opening time that is found but parses with neither format is stored as `None` and raises nothing |
| Dialects.NoClosingTime | neo/rawio/neuralynxrawio/nlxheader.py:378-385 | a dialect whose closing pattern matches nowhere raises with the application and version, after storing the opening time and without a closing time |
| Dialects.InHeaderNeverCloses | neo/rawio/neuralynxrawio/nlxheader.py:316-319 | the `inHeader` dialect never sets the closing time |
| Dialects.OpenLenientCloseStrict | neo/rawio/neuralynxrawio/nlxheader.py:366-393 | in `inProps` a time only the second format accepts opens the recording but closes it with `None` |
| Classifier.Named | neo/rawio/neuralynxrawio/nlxheader.py:439 | `AcqType[name]` finds only the member with that exact name |
| Classifier.NamedRoundTrip | neo/rawio/neuralynxrawio/nlxheader.py:439 | the lookup finds every member by its name, and by nothing else |
| Classifier.FromAcquisitionSystem | neo/rawio/neuralynxrawio/nlxheader.py:439 | success means the acquisition system is text with a second word whose upper-case form is the member's name, and such a word always gives that member |
| Classifier.TypeOfRecording | neo/rawio/neuralynxrawio/nlxheader.py:395-445 | the classification raises only with the error of the acquisition-system lookup |
| Classifier.BaseClassFirst | neo/rawio/neuralynxrawio/nlxheader.py:402-413 | a base class type decides alone: `CscAcqEnt` gives PRE4, `BmlAcq` gives BML, anything else UNKNOWN |
| Classifier.SubsystemSecond | neo/rawio/neuralynxrawio/nlxheader.py:415-434 | without a base class type the hardware subsystem decides: each of the four subsystem names gives its own tag, any other value UNKNOWN |
| Classifier.FailsOnlyOnAcquisitionSystem | neo/rawio/neuralynxrawio/nlxheader.py:436-439 | the classification raises exactly in the file-type group, for file versions 3.2 to 3.4, when the acquisition system names no member |
| Classifier.FileTypeListedVersion | neo/rawio/neuralynxrawio/nlxheader.py:436-439 | in the file-type group, file versions 3.2 to 3.4 take the acquisition system's outcome, success or error |
| Classifier.FileTypeFallbacks | neo/rawio/neuralynxrawio/nlxheader.py:436-445 | a file type without a listed version gives CHEETAH560, and no group key gives UNKNOWN |
| Classifier.AcquisitionSystemWord | neo/rawio/neuralynxrawio/nlxheader.py:439 | a Latin-1 word without `ß` names a member only if it is ASCII letters and digits of the same length as the name |
| NlxHeader.ConvertEach | neo/rawio/neuralynxrawio/nlxheader.py:188 | the comprehension loop succeeds exactly when every element converts, with the converted list, and otherwise stops at the first rejected position |
| NlxHeader.ConvertInts | neo/rawio/neuralynxrawio/nlxheader.py:188 | the integer comprehension computes `IntsOf` |
| NlxHeader.ToMicroVolts | neo/rawio/neuralynxrawio/nlxheader.py:143 | the loop succeeds exactly when every factor parses; it yields the factors scaled to microvolts, and otherwise raises at the first bad factor |
| NlxHeader.AssignmentsPrefix | neo/rawio/neuralynxrawio/nlxheader.py:114 | the assignments of the first rules precede those of the rest |
| NlxHeader.ApplyPrefixFailure | neo/rawio/neuralynxrawio/nlxheader.py:124 | once a conversion raises, the rest of the loop does not run |
| NlxHeader.IdCount | neo/rawio/neuralynxrawio/nlxheader.py:186-204 | the returned count is the number of ids, or 0 when the ids are `["unknown"]` |
| NlxHeader.HeaderInvariants | neo/rawio/neuralynxrawio/nlxheader.py:81-105 | a header that parsed has as many names as ids, an application name and version, one factor per id, one input range per id token, and an opening time unless only properties were read |
| NlxHeader.Header.ReadProperties | neo/rawio/neuralynxrawio/nlxheader.py:107-125 | the nested loops leave the table and the outcome that the assignment fold over the rule table gives |
| NlxHeader.Header.ReadRules | neo/rawio/neuralynxrawio/nlxheader.py:114-125 | the same for any rule table, with the loop invariants that prove it |
| NlxHeader.Header.ConvertChannelIdsNames | neo/rawio/neuralynxrawio/nlxheader.py:176-204 | the in-place updates leave the table and count of `Channels.ConvertIdsNames` |
| NlxHeader.Header.SetApplicationAndVersion | neo/rawio/neuralynxrawio/nlxheader.py:147-174 | the in-place updates leave the table and outcome of `Application.ApplicationAndVersion` |
| NlxHeader.Header.SetBitToMicroVolt | neo/rawio/neuralynxrawio/nlxheader.py:137-145 | the in-place updates leave the table and outcome of `Channels.BitToMicroVolt` |
| NlxHeader.Header.SetInputRanges | neo/rawio/neuralynxrawio/nlxheader.py:127-135 | the in-place updates leave the table and outcome of `Channels.InputRanges` |
| NlxHeader.Header.ReadTimeDate | neo/rawio/neuralynxrawio/nlxheader.py:322-393 | the in-place updates leave the table and outcome of `Dialects.ReadTimeDate` |
| NlxHeader.Header.Load | neo/rawio/neuralynxrawio/nlxheader.py:81-105 | `__init__` leaves the table and outcome of the whole parse of the file's header text |
| NlxHeader.Header.constructor | neo/rawio/neuralynxrawio/nlxheader.py:89 | a new header starts as an empty table |

## Left out

- `neo/rawio/maxwellrawio.py` is not part of this model. It reads HDF5 files through a library and works on arrays of floating-point samples.
- File I/O: the file's bytes are a parameter of `Load`, and `HeaderText` takes the first 16 KiB of them.
- The check that the header starts with eight `#` characters builds a `ValueError` but never raises it (nlxheader.py:94-95). It has no effect, so it is not modelled.
- `filename` is used only for the unused `name` (nlxheader.py:183). The `filename_regex` entries of the dialects are never read. Neither is modelled.
- Floating point: `float()` is the `parseFloat` parameter, and `* 1e6` is exact multiplication on reals, without rounding.
- `datetime.strptime` is the `strptime` parameter. Calendar rules and format directives are not modelled.
- `packaging.version.Version` is modelled only for release segments with an optional developmental part, the forms these headers use.
- Pep440.Parse: pre-releases, post-releases, epochs and local versions are rejected rather than parsed.
- The dictionary's insertion order is not modelled: the table is a `map`.
- Python's `re` is not interpreted. The six pattern shapes used are matched by hand. Character classes are exact for Latin-1 text, which is all a decoded header holds.
- `AcqType` is defined outside this file. It is modelled with only the eight members this file names. Other member names are unknown to the lookup.
- The error messages of the exceptions are not modelled beyond the data they carry.

## Behaviour as written

These points follow the code, not the documentation:
- When there is more than one channel name, `channel_names` stays text. The length check then compares that text's length in characters with the number of ids (`Channels.ConvertIdsNamesNames`).
- `setInputRanges` checks against the number of id tokens, which is 0 without ids. `setBitToMicroVolt` checks against `len(channel_ids)`, which is 1 in that case (`NlxHeader.HeaderInvariants`).
- Dialect selection does not change the stored application name or version (`Dialects.ReadTimeDate` changes only the two times).
- The `bml` dialect is never selected (`Dialects.Select`). `inHeader` has no closing pattern (`Dialects.InHeaderNeverCloses`).
