# Budget-constrained Steiner network: solution reconstruction and battery update

This project models two C programs of a pipeline. The pipeline chooses full
Steiner trees (FSTs) under a budget so that battery-powered terminals stay
covered.

- `simulate.c` rebuilds one reconciled picture of a solution from three
  text files:
  - the terminals file (`x y battery` triples);
  - the candidate-tree dump (one tree per line, as terminal ids);
  - the solver transcript, a drawing program with `% fs<N>: ids…` comments
    and `x y id T S` drawing lines, plus the LP debug output and gap
    messages.

  It then marks the dumped trees that the transcript selects and counts
  the selected trees and the covered terminals. It decides, per selected
  tree, whether to draw it as a junction (spokes from its Steiner point)
  or as a chain (links between consecutive terminals). It also colours
  each terminal by battery level, places it on an 800 × 600 canvas, and
  reports the final MIP gap.
- `battery_wrapper.c` reads the terminals into a growing buffer. It then
  either drains every battery (when the transcript reports no selected
  tree) or charges the covered terminals and drains all of them. Terminal 0,
  the base station, is pinned at 100, and every level is clamped to
  [0, 100].

A file is a `seq<string>` of lines, each keeping its newline, or `None` when
it cannot be opened. `parse_terminals` reads with `fscanf` over the whole
stream, so its file is one `string`. `sscanf`, `strstr`, `strchr`, `strtok`
and `atoi` are modelled by the modules `CText` and `Scan`. `Scan` is a small
interpreter of the scanf directives each format string compiles to. Every
parser is a method with a loop over the input. Those that fill the caller's
array do so in that loop. `MipGap.ParseFinalMipGap` and
`Battery.CheckForSelectedFsts` instead return one value (a gap, a count).
Each parser is proved equal to a recursive specification function over the lines, and the
properties are lemmas about those functions. The loops live in `LineLoops`,
written once over line classifiers passed as function values:

- collect into an array, or into a buffer that doubles;
- look ahead with a rewind;
- record the latest value per key;
- keep the latest of three values;
- count;
- mark listed ids.

Each C parser passes its own classifiers.

Modules, in dependency order:

- `Wrappers`: `Option`.
- `CText`: C string functions.
- `Scan`: scanf directives and the format strings used.
- `Seqs`: last-match, collect, count and listing functions, with their lemmas.
- `LineLoops`: the generic loops.
- `Network`: terminals, trees and points.
- `TerminalsFile`, `TreeDump`, `Transcript`, `Coverage` and `MipGap`: the `simulate.c` parsers.
- `Render`: colours and canvas scaling.
- `Report`: the decisions of `create_rich_visualization`.
- `Battery`: `battery_wrapper.c`.

## Model

| member | source | states |
|---|---|---|
| TerminalsFile.ParseTerminals | simulate.c:1070-1092 | -1 only when the file cannot be opened; otherwise the triples of the stream in order, up to `max_terminals`, stopping at the first one that fails to scan. Slots past the count are untouched. |
| TerminalsFile.TerminalsInShape | simulate.c:1081-1088 | Terminals read have ids 0..count-1, are covered by default, and number at most `max_terminals`. |
| TerminalsFile.TerminalsOfTriples | simulate.c:1081-1088 | When the triples of a file scan at successive positions and the next read fails, exactly min(`max_terminals`, their number) terminals are read: the k-th is the k-th triple, with id k and covered. |
| TerminalsFile.TerminalsPrefix | simulate.c:1081 | A smaller capacity reads a prefix of what a larger one reads: no triple is skipped. |
| TerminalsFile.TripleAt | simulate.c:1081 | A triple that scans always advances the stream position. |
| LineLoops.ChainInto | simulate.c:1081-1088 | The cursor-driven read loop stores exactly the records of the reader's chain, numbered in order. |
| LineLoops.ChainFollowsReads | simulate.c:1081-1088 | When reads succeed at successive positions and then fail, the chain is exactly those records, cut at the room available. |
| TreeDump.ParseFstsFromDump | simulate.c:1296-1353 | -1 on open failure; otherwise one tree per dump line that keeps at least two ids, stored in order, at most `max_fsts`. |
| TreeDump.TokenId | simulate.c:1327-1332 | A token is kept only when it starts with a digit, or with '-' then a digit, and its `atoi` value is in [0, 50). |
| TreeDump.KeptIds | simulate.c:1325-1335 | A line's ids are its kept tokens in order, the first ten. |
| TreeDump.KeptIdsInOrder | simulate.c:1326-1333 | Every kept token is among the line's ids while fewer than ten precede it. |
| TreeDump.SkippedLinesGiveNoTree | simulate.c:1311-1318 | Empty lines and lines containing DEBUG give no tree. |
| TreeDump.DumpFstsShape | simulate.c:1337-1347 | Trees get ids 0,1,2… in emission order, are unselected, and have 2..10 ids in [0, 50). Each counts one Steiner point iff it has more than two terminals, and carries the placeholder cost. |
| Transcript.ParseSelectedFstIds | simulate.c:1267-1294 | -1 on open failure; otherwise the N of every trimmed `% fs<N>:` line, in file order, at most `max_fsts`. |
| Transcript.FstHeaderOf | simulate.c:1172-1191 | A header yields the same id as the selected-id reading, and 1 to 10 terminal ids. |
| Transcript.HeaderEndsLookahead | simulate.c:1212-1219 | A header line is never taken for a Steiner line, and it always ends the Steiner look-ahead. |
| Transcript.HeaderStartsWithPercent | simulate.c:1178 | A header line starts with `%` after its leading white space. |
| Transcript.SteinerStartsWithNumber | simulate.c:1212 | A Steiner line starts with a sign, a point or a digit after its leading white space. |
| Transcript.FstOf | simulate.c:1192-1218 | A recovered tree is selected with cost 0, has its header's id and terminals, and has at most one Steiner point, present iff counted. |
| Transcript.ParseFstsFromSolution | simulate.c:1159-1236 | -1 on open failure; otherwise the trees the header/look-ahead scan recovers, at most `max_fsts`. |
| Transcript.SolutionFstsMatchHeaders | simulate.c:1171-1227 | One tree per header (up to `max_fsts`) with the header's id and terminal list, 1..10 terminals, selected, with the Steiner point iff counted: the rewind swallows no header. |
| Transcript.SolutionFstIdsSelected | simulate.c:1176-1178 | Every recovered tree's id is among the selected ids read from the same transcript. |
| LineLoops.NoHeaderSwallowed | simulate.c:1203-1225 | When every header stops the look-ahead, the headers of the scan are exactly the headers of the lines, in order, up to the capacity. |
| LineLoops.LookAhead | simulate.c:1203-1225 | The look-ahead stops at the first line that is not a Steiner line and stops it, and returns the first Steiner point before it. The position returned is the start of that line (the `fseek` back). |
| LineLoops.TreeScanInto | simulate.c:1171-1231 | The outer loop stores exactly the scan's trees, in order. |
| Coverage.ParseSolutionCoverage | simulate.c:1094-1132 | The first `max` flags start covered. When the file opens, each becomes "last `not_covered` value printed for it is below 0.5", and other slots are untouched; -1 when the file cannot be opened. |
| LineLoops.RecordLatest | simulate.c:1114-1123 | Each slot in range holds the last value printed for its key, or keeps its old value. |
| Coverage.LastValueDecides | simulate.c:1114-1128 | The last `not_covered` line for a terminal decides its verdict against 0.5. |
| Coverage.UnmentionedCovered | simulate.c:1103-1106 | A terminal no line mentions stays covered. |
| Coverage.UncoveredHasWitness | simulate.c:1119-1127 | An uncovered terminal has a line printing a value ≥ 0.5 for it. |
| Coverage.VerdictsStable | simulate.c:1114-1128 | Reading the transcript twice over gives the same verdicts. |
| MipGap.RelativeGap | simulate.c:57 | The relative gap is non-negative and times abs(incumbent) equals abs(bound − incumbent). |
| MipGap.BoundGapOf | simulate.c:54-59 | A bound/integer line sets the gap iff it scans and the incumbent is non-zero, and the gap is the relative gap. |
| MipGap.BranchGapOf | simulate.c:90-107 | A branch line sets the gap iff both values scan and the smaller is non-zero. The smaller value is the incumbent and the larger the bound. |
| MipGap.LineGapPriority | simulate.c:52-107 | Within a line, branch overrides tolerance, which overrides "MIP gap", which overrides bound/integer; a line sets the gap iff some pattern does. |
| MipGap.ParseFinalMipGap | simulate.c:43-121 | The single pass plus fallback computes `FinalMipGap`: -1 on open failure, else the last gap set, else the fallback estimate, else unavailable. |
| LineLoops.LatestOfThree | simulate.c:51-108 | The pass keeps, for each of three line readings, the value of the last line that gives one. |
| MipGap.LastGapLineGoverns | simulate.c:51-108 | The last line that sets the gap decides it. |
| MipGap.UnavailableExactly | simulate.c:110-120 | "Not available" iff no line sets a gap and the fallback lacks a "New best" value, a branch line or a non-zero incumbent. |
| MipGap.NothingMatchesUnavailable | simulate.c:48-120 | A transcript where nothing matches gives "Not available". |
| MipGap.FallbackOnlyAfterZeroBranches | simulate.c:99-117 | The fallback estimate is used only when every branch line had a smaller value of 0, and a "New best" and a branch line were seen. |
| MipGap.BoundNinetyOfHundred | simulate.c:54-58 | A transcript whose only line is "Best bound = 90 , Best integer = 100" gives the gap 0.1 = abs(90 − 100) / 100: the line scans as a bound/integer pair, and no other pattern matches it. |
| MipGap.RepeatedTranscriptSameGap | simulate.c:51-117 | Reading the transcript twice over gives the same gap. |
| MipGap.ShownGap | simulate.c:938-944 | The table shows a number iff the result is a gap ≥ 0, and then that gap. |
| MipGap.ShownGapMissing | simulate.c:44-45 | An unopenable transcript, or one where no pattern matches, shows "Not available". |
| MipGap.ComputedGapsShown | simulate.c:54-107 | A gap computed from a bound and an incumbent is never negative. |
| Render.ColorRankCountsMissedFloors | simulate.c:1134-1147 | The colour band is the number of floors 80, 60, 40, 20 the level does not reach. |
| Render.ColorMonotone | simulate.c:1134-1147 | A fuller battery never gets a colour further down the palette. |
| Render.TruncToInt | simulate.c:1155-1156 | The `(int)` cast truncates toward zero. |
| Render.ScaledInCanvas | simulate.c:1149-1157 | A point of the unit square lands at x in [50, 750] and y in [50, 550]. |
| Render.ScaledYInverted | simulate.c:1156 | y = 1 maps to 50 and y = 0 to 550. |
| Render.ScaledMonotone | simulate.c:1155-1156 | Scaling keeps the order of x and reverses the order of y. |
| Report.Reconcile | simulate.c:796-807 | Each of the first `num_all_fsts` trees becomes selected iff its id is among the first `num_selected_ids` ids, with no other field or slot changed. |
| Report.Reconciled | simulate.c:797-802 | The selection flag is set iff the id is listed, and nothing else changes. |
| Report.CountSelected | simulate.c:924-927 | The loop counts the selected trees among the first `num_all_fsts`. |
| Report.CountCovered | simulate.c:918-921 | The loop counts the covered terminals among the first `num_terminals`. |
| Report.SelectedCountIsListed | simulate.c:796-807 | After reconciliation the selected count is the number of trees whose id is listed, whatever their earlier flags. |
| Report.SelectedCountIsListedTrees | simulate.c:796-807 | For the dump's trees (ids 0,1,2…), the selected count is the number of positions listed among the selected ids. |
| Report.Spokes | simulate.c:831-845 | Junction mode gives at most one spoke per member, each from the Steiner point to a member in range. |
| Report.SpokesCoverMembers | simulate.c:836-845 | A spoke goes to terminal t iff t is a member in [0, num_terminals). |
| Report.Links | simulate.c:850-860 | Chain mode gives at most (members − 1) links, none for fewer than two members, each between terminals in range. |
| Report.LinksJoinNeighbours | simulate.c:851-853 | A link from a to b is drawn iff b follows a somewhere in the member list and both are in range: links join neighbours, and no neighbouring pair in range is skipped. |
| Report.LinksNeedMembersInRange | simulate.c:854 | A tree whose members are all out of range draws no link. |
| Report.DrawSpokes | simulate.c:836-845 | The junction loop draws exactly the spokes. |
| Report.DrawLinks | simulate.c:851-860 | The chain loop draws exactly the links. |
| Report.DrawSegments | simulate.c:829-863 | The drawing loop draws each selected tree's segments in tree order, junction mode iff it has a Steiner point. |
| Report.SegmentsStayInRange | simulate.c:829-863 | Every segment drawn ends at terminals that were read. |
| Report.Markers | simulate.c:866-892 | Terminal k's marker is its scaled position, its battery colour, its coverage and the label k. |
| Report.WithCoverage | simulate.c:702-708 | Terminal k is shown covered iff the transcript cannot be opened or its verdict is covered, and gets id k. |
| Report.ApplyCoverage | simulate.c:705-708 | The update loop copies each verdict and sets the id to the position. |
| Report.LoadTerminals | simulate.c:696-708 | The terminals are read and given their coverage verdicts. |
| Report.LoadDumpedTrees | simulate.c:760-807 | The dumped trees are read and reconciled against the selected ids; -1 when the dump cannot be opened. |
| Report.LoadSolutionTrees | simulate.c:810-811 | The selected trees are read from the transcript. |
| Report.TreeMetrics | simulate.c:760-863 | The dumped trees are reconciled and counted, and the transcript's trees give the segments drawn. The total is -1 when the dump cannot be opened. |
| Report.BuildPage | simulate.c:760-944 | Once terminals are read, the trees, segments, counts and gap make up the assembled page. |
| Report.CreateVisualization | simulate.c:682-944 | The whole sequence computes `Visualize`: nothing when no terminal is read or the page cannot be written, else the terminals, markers, segments and metrics. |
| Report.RateIsPercentage | simulate.c:932-933 | The coverage rate is in [0, 100]. |
| Report.AssembledMetricsConsistent | simulate.c:918-933 | Selected ≤ total trees; covered + uncovered = terminals; the rate is a percentage. |
| Report.MetricsConsistent | simulate.c:696-933 | A produced page shows 1 to 50 terminals, and its metrics are consistent. |
| Battery.Clamp | battery_wrapper.c:100-104 | The result is in [0, 100], equal to the level when already in range, and the nearer bound otherwise. |
| Battery.ClampIdempotent | battery_wrapper.c:100-104 | Clamping twice is clamping once. |
| Battery.ClampMonotone | battery_wrapper.c:100-104 | Clamping keeps order. |
| Battery.ReadTerminals | battery_wrapper.c:107-137 | -1 on open failure. Otherwise the rows of every unskipped line whose triple scans, status 0 iff at least one was read, and a buffer that holds them. Once grown, the buffer is at most twice the count. |
| LineLoops.CollectGrowing | battery_wrapper.c:113-134 | The buffer keeps every record in order and is its starting size doubled some number of times. It never holds fewer slots than records, and once grown at most twice as many. |
| LineLoops.StoreNext | battery_wrapper.c:120-133 | One line: unless it is skipped, room is made; a scanned triple is stored as the next record; the doubling and size bounds are kept. |
| LineLoops.DoubledIsPowerOfTwo | battery_wrapper.c:121-124 | A size reached by repeated doubling is exactly the starting size times a power of two. |
| LineLoops.MakeRoom | battery_wrapper.c:121-126 | A full buffer doubles and keeps its contents, so there is always room for one more record. |
| Battery.TerminalRowsShape | battery_wrapper.c:127-133 | Terminals read have ids 0..count-1, a battery in [0, 100], and are not covered. |
| Battery.SkippedRowsGiveNothing | battery_wrapper.c:120 | Comment lines and lines shorter than two characters give no terminal. |
| Battery.CheckForSelectedFsts | battery_wrapper.c:140-150 | -1 on open failure, else the number of lines with both `x[` and `] = 1.0`. |
| Battery.NoSelectionExactly | battery_wrapper.c:140-150 | The count is 0 iff the file opens and no line reports a selected tree. |
| Battery.ParseCoverageFromSolution | battery_wrapper.c:153-176 | -1 with nothing touched on open failure. Otherwise flag k in [0, max) is set iff some `% fs`/`:` line lists k after its colon; 0 iff such a line exists, else -1. |
| LineLoops.MarkListed | battery_wrapper.c:159-173 | Each flag in range ends set iff it was set or some line lists it, and the result says whether any line lists ids. |
| Battery.MarkedHasWitness | battery_wrapper.c:160-173 | A terminal is marked iff some tree line lists it. |
| Battery.NonNumericTokenMarksBase | battery_wrapper.c:164-167 | A token whose `atoi` value is 0, such as a non-numeric one, marks terminal 0. |
| Battery.DemandOnlyUpdate | battery_wrapper.c:179-189 | Terminal 0 gets battery 100 and is covered. Every other terminal is uncovered with clamp(old − demand), in place. |
| Battery.UpdateBatteryLevels | battery_wrapper.c:194-209 | Terminal 0 gets 100. Every other terminal gets clamp(old + (covered ? charge : 0) − demand), in place. |
| Battery.UpdatesKeepRange | battery_wrapper.c:179-208 | After either update every battery is in [0, 100] and terminal 0's is 100. The charge update changes only batteries, so the covered flags are kept. |
| Battery.CoveredNeverDrains | battery_wrapper.c:201-202 | A covered terminal other than 0 never loses charge when charge ≥ demand. |
| Battery.UncoveredDrains | battery_wrapper.c:201-202 | An uncovered terminal other than 0 loses the demand, down to 0. |
| Battery.DefaultRatesNetFive | battery_wrapper.c:194-209 | With the default rates 10 and 5, a covered terminal other than 0 gains 5 up to 100 and an uncovered one loses 5 down to 0. |
| Battery.WithMarks | battery_wrapper.c:251-258 | Terminal i is covered iff the transcript opens and lists i. |
| Battery.ApplyMarks | battery_wrapper.c:256-258 | The loop copies the coverage flags onto the terminals. |
| Battery.CoverageUpdate | battery_wrapper.c:251-262 | Zeroed flags, coverage parsing, copying and the charge update compute the charge rule over the marked terminals. |
| Battery.RunWrapper | battery_wrapper.c:238-267 | The run computes `Run`, with exit status 1 iff no terminal is read. |
| Battery.DemandOnlyExactly | battery_wrapper.c:243-249 | The demand-only rule is applied iff the transcript opens and reports no selected tree. |
| Battery.FailsExactly | battery_wrapper.c:238-241 | A run fails iff the terminals file cannot be opened or gives no terminal. |
| Battery.UnopenedSolutionDrainsOnly | battery_wrapper.c:243-262 | With an unopenable transcript the coverage-driven rule runs with nothing covered. It leaves the same batteries as the demand-only rule would. |

## Left out

- Command-line handling, usage text and option parsing (`main` of `simulate.c`, `parse_arguments` and `print_usage` of `battery_wrapper.c`). The charge and demand rates are parameters; the defaults 10 and 5 are constants, and `Battery.DefaultRatesNetFive` states the update they give.
- Input generation with `rand()`, and the external tools run through `system()`. Directory creation and file probes.
- The HTML and SVG text. The model keeps the decisions: segments, marker colour, position and coverage, and the metrics. The hard-coded cost and budget-utilisation figures are constants, not computed.
- Report.Spokes, Report.Links: segments are kept as terminal ids and Steiner points. Their pixel end points are `ScaleCoordinates` of those, left implicit.
- `parse_selected_fsts`: never called.
- `write_terminals`: `RunWrapper` returns the terminals it would write.
- The verbose logging.
- Opening and closing files: a file is its lines, or `None` when it cannot be opened. The 1024- and 4096-byte `fgets` split of long lines is not modelled.
- How the dump file's path is derived from the trees file's path (`strrchr`/`strcat`). The dump is passed in, and the page's writability is a flag.
- `malloc`, `realloc` and `calloc` failure; `int` overflow of counts and of `atoi`.
- Report.Visualization: the coverage rate and gap are exact reals. `%.1f` formatting and floating-point rounding are not modelled.
- Scan.ScanReal: the numbers `strtod` accepts are reduced to `[sign] digits [. digits] [e [sign] digits]`. Hexadecimal floats, `inf` and `nan` are not modelled.
- `sscanf` is modelled up to the first failed directive. The pushback of a partly read character is not modelled.
- Battery.ReadTerminals: slots past the count hold a default terminal. In C they are uninitialised or partly written by a failed scan.
- The two Python scripts and `debug_parser.c`.
