# Recency-weighted Spotify shuffler: a Dafny model

This project models the pure logic of a small script that queues a Spotify
playlist in a shuffled order that pushes recently played songs back.

- `Shuffler.shuffle` (module `Shuffler`, file `shuffler.dfy`) gives each song
  a 1-based recency rank by matching its URI against the recently-played
  history. It scores each song as a recency bias plus a random integer, and
  returns the songs stable-sorted by score, highest first.
  - Randomness is injected as a stream of raw draws `draws: seq<nat>`, read
    from a cursor. `randint(lo, hi)` is modelled as `lo + d % (hi - lo + 1)`
    for the next raw draw `d`.
  - The floating-point curve `250 * tanh(5 / rank)` is a parameter `t` of
    type `Curve`. The only thing known about it is that it lies in [0, 250].
  - Scores are reals.
- The stable descending sort (module `StableSort`, file `stable_sort.dfy`) is
  an insertion sort. It is proved to be a permutation, key-descending and
  stable, which is what Python's `sorted(..., key=lambda x: -score)`
  guarantees.
- The command-line helpers of `main.py` (module `Cli`, file `cli.dfy`):
  - `find_name_in_playlists`;
  - `group_quotes`, which re-joins shell tokens split inside double quotes;
  - `parse_args`. Every `sys.exit` of the option scanner becomes a
    `ParseError` value. The help text (main.py:14) documents the long limit
    flag as `-limit`, but the scanner (main.py:238) accepts `limit` without a
    dash. The model follows the scanner: `Cli.DashLimitIgnored` and
    `Cli.LongLimitForm` state both sides.
- The offset/limit selection at the end of `main` (module `Queueing`, file
  `queueing.dfy`): which songs of the shuffled list are sent to the
  player's queue.
- `Results` (file `results.dfy`) holds the `Option` and `Result` datatypes.

## Model

| member | source | states |
|---|---|---|
| StableSort.Sort | Shuffler.py:21 | the sorted list is a permutation of the input, of the same length |
| StableSort.SortSorted | Shuffler.py:21 | sorting by `-score` leaves keys non-increasing from left to right |
| StableSort.SortStable | Shuffler.py:21 | for every key value, the elements with that key keep their input order (`sorted` is stable) |
| StableSort.SortMapPerm | Shuffler.py:21 | any projection of the sorted entries (e.g. their songs) is a permutation of the same projection of the input |
| Shuffler.RandInt | Shuffler.py:43-51 | `randint(lo, hi)` lies in [lo, hi]; a raw draw already in range is returned as it is, so every outcome is reachable |
| Shuffler.DrawsNeeded | Shuffler.py:18-19 | scoring n entries takes between n and 2n draws |
| Shuffler.DrawsNeededCount | Shuffler.py:53-59 | scoring takes exactly one draw per entry plus one per entry with a valid rank |
| Shuffler.RecencyBias | Shuffler.py:34-48 | no rank, and the invalid rank 0, give bias 0 without a draw; a valid rank takes one draw `u` from [0, 100] and gives `-max(0, t(rank) - u)`, which lies in [-250, 0] |
| Shuffler.BiasMonotone | Shuffler.py:43-48 | with the same draw, a larger curve value never gives a larger bias; the bias is 0 exactly when the curve value does not exceed the draw from [0, 100] |
| Shuffler.RandomTerm | Shuffler.py:50-51 | the random term is `randint(0, 1000)` of the current draw, so it lies in [0, 1000], and takes one draw |
| Shuffler.EntryScore | Shuffler.py:53-59 | a score is the recency bias computed from the current draw plus `randint(0, 1000)` from the draw after the bias's, so a ranked song draws from [0, 100] first; it lies in [-250, 1000], an unranked song's score is exactly its draw from [0, 1000], and scoring takes the bias draws and then one more |
| Shuffler.ScoreAll | Shuffler.py:18-19 | scoring in input order keeps each entry's song and rank, bounds every score, and advances the cursor by exactly the draws needed |
| Shuffler.ScoreAllFrom | Shuffler.py:18-19 | songs are scored one after another in playlist order: song i's score is `get_score` computed from the draw that follows the draws of the songs before it |
| Shuffler.DrawsBeforePrefix | Shuffler.py:18-19 | the draws taken before song i are exactly the draws the first i songs take |
| Shuffler.ScoreAllFrame | Shuffler.py:18-19 | scoring reads only the draws it uses: two streams that agree on them give the same scores |
| Shuffler.FirstWithUri | Shuffler.py:13-14 | the first queue index whose song has the URI, or none exactly when no song has it |
| Shuffler.MarkFirst | Shuffler.py:13-16 | only the first entry with the URI gets the rank; songs, scores and every other rank are unchanged |
| Shuffler.MatchHistory | Shuffler.py:12-16 | matching keeps every song and score in place; the ranks it hands out are stated by Shuffler.MatchHistoryRanks |
| Shuffler.ExpectedRank | Shuffler.py:12-16 | an expected rank is a 1-based history position |
| Shuffler.MatchHistoryRanks | Shuffler.py:12-16 | after matching, a song is ranked only if it is the first occurrence of its URI in the playlist, and then its rank is 1 + the LAST history index holding that URI |
| Shuffler.MatchedSongs | Shuffler.py:12-16 | matching keeps the playlist's songs in their order |
| Shuffler.MatchedRankRange | Shuffler.py:12-16 | every rank matching hands out is in [1, history length], so the rank-0 guard is never reached from `shuffle` |
| Shuffler.Arrange | Shuffler.py:18-21 | scoring and sorting matched entries gives the same songs as a permutation, ordered by non-increasing score, using exactly the draws scoring needs |
| Shuffler.ScoreAllSongs | Shuffler.py:18-19 | scoring keeps the songs in place |
| Shuffler.Shuffle | Shuffler.py:8-32 | the shuffled queue is a permutation of the playlist (empty for an empty playlist), its entries' scores are non-increasing, and it takes between n and 2n draws |
| Shuffler.ShuffleDraws | Shuffler.py:18-19 | a shuffle takes exactly one draw per song plus one per ranked song |
| Shuffler.ShuffleBounds | Shuffler.py:34-59 | every shuffled entry has a score in [-250, 1000], non-negative when unranked, and a rank that is a 1-based history position |
| Shuffler.Scored | Shuffler.py:18-19 | scoring keeps one entry per song |
| Shuffler.ScoredEntries | Shuffler.py:9-19 | before sorting, entry m is playlist song m with exactly its expected recency rank |
| Shuffler.ShuffleReorders | Shuffler.py:21 | the shuffle's entries are the scored entries reordered, and entries of equal score keep their playlist order |
| Shuffler.ShuffleFrame | Shuffler.py:8-32 | a shuffle depends only on the draws it uses, so a fixed draw stream gives one result |
| Cli.FindNameInPlaylists | main.py:47-59 | the result is the first playlist with that exact name, and none exactly when no playlist has it |
| Cli.DigitsValueZero | main.py:246-249 | a digit string has value 0 exactly when all its digits are `0` |
| Cli.Decimal | main.py:243-246 | the decimal spelling of a number is a digit string that `isnumeric` accepts |
| Cli.DecimalRoundTrip | main.py:246 | `int` of a number's decimal spelling is the number |
| Cli.StripQuotes | main.py:205 | `strip('"')` leaves a string that neither starts nor ends with a quote, no longer than before, and empty exactly when it was all quotes |
| Cli.StripQuotesSlice | main.py:205 | `strip('"')` removes quotes only, and only from the two ends: the result is a slice of the input with nothing but quotes before and after it |
| Cli.StripOpening | main.py:205 | one opening quote in front of an unquoted word is removed |
| Cli.StripClosing | main.py:205 | one closing quote after an unquoted word is removed |
| Cli.StripUnquoted | main.py:205 | a string without quotes at its ends is left alone |
| Cli.StripTwice | main.py:205 | stripping is idempotent |
| Cli.GroupStep | main.py:197-205 | outside a group a token adds one argument, itself stripped, and opens a group exactly when it starts with a quote; inside a group the last argument becomes the stripped join of it, one space and the token, and the group stays open exactly when the token does not end with a quote; earlier arguments are untouched |
| Cli.GroupFrom | main.py:196-205 | grouping never adds more arguments than tokens, keeps arguments unquoted, and an open group always has an argument to extend |
| Cli.GroupQuotes | main.py:184-207 | the output is no longer than the input and no argument starts or ends with a quote |
| Cli.NoOpeningQuote | main.py:196-205 | without a token opening a quote, every token is kept in place, only stripped |
| Cli.NoOpeningQuoteFrom | main.py:196-205 | the same from any grouping state outside a group: the earlier arguments are kept and no group is left open |
| Cli.OpenStep | main.py:197-205 | outside a group, a token starting with a quote opens a group holding the word |
| Cli.InsideStep | main.py:201-205 | inside a group, a token that does not end with a quote is appended after one space, and the group stays open |
| Cli.CloseStep | main.py:201-205 | inside a group, a token ending with a quote closes it |
| Cli.GroupsThreeWords | main.py:196-205 | a name quoted over three tokens becomes one argument with single spaces, after whatever came before |
| Cli.GroupsArgumentFrom | main.py:196-205 | an option followed by a name quoted over three tokens becomes the option and its one argument, after whatever came before |
| Cli.GroupsQuotedArgument | main.py:185-187 | `-p "my awesome playlist"`, split into four tokens, is grouped back into the option and its one argument |
| Cli.GroupsQuotedName | main.py:184-207 | the same after the program name, as in a full command line |
| Cli.OpeningTokenNotClosed | main.py:197-200 | the opening token is never checked for a closing quote: outside a group, every token that starts with a quote opens one, even if it also ends with a quote |
| Cli.QuotedWordSwallowsNext | main.py:196-205 | so `"a"` followed by `b` is grouped into the one argument `a b` |
| Cli.LimitOf | main.py:239-246 | a limit value is unlimited exactly when it is `inf` |
| Cli.Check | main.py:232-273 | a token fails only with a scanner error; an option needing a value at the end of the line is a missing argument; `-o` passes exactly when its value is all digits; a help flag always stops the scan; every other token (a plain word, a switch, `-u`/`-p` followed by a value) passes |
| Cli.LimitCheck | main.py:238-249 | `-l` passes exactly for `inf` or a digit string with a non-zero digit; a non-digit value is not an integer; an all-zeros count is below one |
| Cli.Scan | main.py:232-273 | a scan from token i fails only with the error of some token from i on that fails its check, and succeeds only when every token from i on passes |
| Cli.ApplyFields | main.py:234-267 | each option is set only by its own flag: the value after it, the parsed limit or offset, or a switch turned on |
| Cli.ParseArgs | main.py:196-205 | an empty token is exactly what makes grouping crash: the empty-token error is returned exactly when some token is empty |
| Cli.ParseArgsOutcome | main.py:209-275 | on non-empty tokens, parsing fails exactly when some grouped argument fails its check, and otherwise returns the options the grouped arguments describe |
| Cli.ApplyReflects | main.py:232-267 | a token that passes its check keeps the options in step with the last occurrence of every flag so far |
| Cli.ScanOutcome | main.py:232-275 | from any position, the scan fails exactly when a later token fails, with the first one's error, and otherwise its options reflect all tokens |
| Cli.ParseTokensOutcome | main.py:219-275 | parsing fails exactly when some token fails, with the error of the first failing token; otherwise each option holds the value after its last flag and each switch is on exactly when its flag occurs |
| Cli.NoFlagsGiveDefaults | main.py:219-228 | without a recognised flag the options are the defaults |
| Cli.DashLimitIgnored | main.py:238 | `-limit` is not a flag: it and its count are ignored |
| Cli.LongLimitForm | main.py:238-241 | `limit inf`, without a dash, sets an unlimited queue |
| Cli.ValueScannedAsFlag | main.py:232-236 | the value of `-u` is scanned as a flag too |
| Cli.ZeroLimitRefused | main.py:248-249 | a limit of 0 is refused |
| Cli.TrailingOptionRefused | main.py:272-273 | `-o` as the last token is a missing argument |
| Cli.SpacedNotFlag | main.py:234-268 | no token the scanner reacts to contains a space, so a multi-word argument is never taken for a flag |
| Cli.QuotedPlaylistName | main.py:209-275 | a playlist name quoted over three tokens reaches the options as one name, every other option at its default |
| Queueing.Allowed | main.py:347-350 | all the songs left without a limit or with `inf`; with a count, the smaller of the count and the songs left, but at least one song whenever one is left, so a count of 0 queues one |
| Queueing.SelectForQueue | main.py:341-350 | the queued songs are the first songs after the offset, as many as the limit allows; an offset past the end queues nothing |

`Cli.IsNumeric`, `Cli.DigitsValue`, `Cli.Apply` and `Shuffler.Fresh` are
definitions that the rows above state properties of: `Cli.Decimal`,
`Cli.DecimalRoundTrip`, `Cli.DigitsValueZero` and `Cli.LimitCheck` for the
digit checks and `int`; `Cli.ApplyFields` and `Cli.ApplyReflects` for the
effect of a token; `Shuffler.ScoredEntries` and `Shuffler.MatchedSongs` for
the queue built before matching.

## Left out

- Network and authentication: `get_auth`, the paginated `get_playlists` and `get_tracks_from_playlist`, the recently-played fetch and the `add_to_queue` calls. They are calls into the music service. The songs and the history are parameters; queueing a song is modelled by collecting it.
- The interactive prompts `prompt_for_playlist` and `prompt_for_queue_limit`: they read the keyboard. The latter also compares `None < 0` on non-numeric input, which raises in Python. A limit of 0 it can return is covered by `Limited(0)` in `Queueing.Allowed`.
- `help_string` and printing the help text: `-help`/`-h` is modelled only as the `HelpRequested` error.
- The `queue.log` trace written by `shuffle` when `debug` is set: it is file output and does not change the result.
- Floating-point rounding of the score: Python adds the float `-bias` to the integer `randint(0, 1000)` in floating point, so two scores that differ as reals can round to the same float and then keep playlist order. The model adds them exactly as reals.
- `math.tanh`: floating point. The curve is the parameter `t`, bounded to [0, 250]; no monotonicity in rank is assumed.
- Shuffler.MatchHistory: its own contract covers songs and scores only; the rank rule is proved separately, for a freshly built queue, by Shuffler.MatchHistoryRanks, because that is the only queue `shuffle` matches.
- Shuffler.Shuffle: requires at least two draws per song; the real generator never runs out. Two per song is the most a shuffle can take (Shuffler.ShuffleDraws gives the exact count).
- `str.isnumeric` is modelled as ASCII digits. Non-ASCII numeric characters also pass `isnumeric`: `int` reads some of them (other scripts' decimal digits) as digits and raises an uncaught error on others (such as `½`). Neither path is modelled.
- `float("inf")` as a limit is the `Unlimited` constructor.
- The `offset < 0` exit after the digits check cannot fire: a digit string denotes a natural number. There is no error value for it.
- Adjacency repair (no same artist or album twice in a row): `Shuffler.shuffle` in `Shuffler.py` takes only `debug` and contains no repair logic, while `main` (main.py:336-338) passes it `no_double_artist`/`no_double_album` keyword arguments. Which `shuffle` that call reaches depends on what the `shuffler` module imported at main.py:6 resolves to; only if it is this file does the call raise a type error whenever `-ns` is not given. The flags are parsed, but not used by the model.
- The orchestration in `main`: asking for a username, choosing the playlist (by name or by prompt), and using the unshuffled tracks when `-ns` is given. These glue the modelled pieces together with I/O.
- The `SpotifyException` exit while queueing: it comes from the service call.
- An empty command-line token: the script crashes with an uncaught index error in `group_quotes`. It is modelled as the `EmptyToken` error of `Cli.ParseArgs`.
