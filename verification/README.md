# Satellite pass prediction and TLE lookup, modelled in Dafny

This project models the core of a small satellite tracker. The model covers two parts.

- **Pass prediction** (`visibility.py`).
  - `get_orbital_period` reads the mean motion from columns 53–63 of
    element-set line 2. It returns a day of 1440 minutes divided by that
    value.
  - `predict_passes` picks a sampling step of `max(1, period / 60)` minutes.
    It walks a time grid from the start of the window to its end, inclusive.
    At each instant it asks the propagator for the satellite's elevation. A
    two-state machine (outside a pass / inside a pass) turns those
    elevations into pass records: start, end, peak elevation, peak time and
    duration.
  - `get_next_pass_info` reports the first pass and the minutes until it
    starts.
- **Catalog lookup** (`tle.py`, lines 31–61).
  - A three-line catalog text is stripped and cut into lines.
  - Every name line whose stripped, lower-cased text contains the
    lower-cased query is collected together with its two element lines.
  - The matches are then resolved:
    - no match is an error;
    - one match, or JSON mode, takes the first;
    - otherwise the user is shown a numbered menu of at most ten names and
      re-prompted until a valid number is typed.

## Modules

| file | module | contents |
|---|---|---|
| `results.dfy` | `Results` | `Option` and `Result` |
| `text.dfy` | `Text` | Python's `str.strip` (full `isspace` set), `split`, slicing with clamping, ASCII `lower`, substring test, decimal digits |
| `float_parse.dfy` | `FloatParse` | the decimal subset of Python's `float()`, with the whitespace it strips, and fixed-point rendering |
| `period.dfy` | `Period` | the orbital period, the step, and the time grid |
| `scanner.dfy` | `PassScanner` | the rise/set state machine on sample indices, plus a reference definition of a pass it is proved against |
| `prediction.dfy` | `PassPrediction` | pass records in minutes, `predict_passes` as a function and as the loop, and `get_next_pass_info` |
| `catalog.dfy` | `TleCatalog` | the catalog search and the choice among matches |

How the source's inputs are represented:

- **Time.** Time is a real number of minutes on one clock. The scan's start
  (`datetime.now` in the source) is a parameter. So is the `now` that
  `get_next_pass_info` reads.
- **Propagation.** SGP4 propagation and the geodetic conversions are an
  injected function `elevationAt: real -> Option<real>`. `None` stands for a
  propagation error, which the loop skips.
- **Catalog text and answers.** The catalog text is a parameter. So are the
  answers the user types, given as a sequence of strings.

Behaviour of the code worth noting, which the model keeps:

- A negative mean motion is not rejected: visibility.py:47-49 has no sign
  check. It gives a negative period, and the step is then one minute.
- A sample whose propagation fails (`e != 0`, visibility.py:91) is skipped
  without a trace: it neither opens nor closes a pass, and it is not counted
  as a sample at or below the threshold.
- Neither `min_elevation` nor `hours_ahead` is validated. A negative
  `hours_ahead` puts the end before the start, so no instant is visited and
  the result is empty, as long as the end stays within the range of
  `datetime` (see `PassPrediction.PredictPasses` under "## Left out").
- The prompt loop (tle.py:55-61) re-prompts until a valid answer comes. It
  ends otherwise only when `input()` raises `EOFError` because the input is
  exhausted. The model's `NoValidChoice` stands for that `EOFError`,
  reported once the given answers are used up.
- An answer with leading zeros such as `01` is accepted, since
  `str.isdigit` and `int` both accept it (tle.py:57-58).

## Model

| member | source | states |
|---|---|---|
| Text.StripSpec | tle.py:31-38 | the result is the input with a leading and a trailing run of whitespace removed; both removed runs are all whitespace and the result neither starts nor ends with whitespace |
| Text.Lower | tle.py:32-37 | lower-casing keeps the length, maps each character on its own, and leaves no ASCII capital behind |
| Text.Split | tle.py:31 | splitting gives at least one piece; no piece contains the separator; joining the pieces with the separator gives back the input |
| Text.SplitJoin | tle.py:31 | splitting the join of separator-free pieces gives back exactly those pieces |
| FloatParse.ParseFloat | visibility.py:47 | any text the modelled `float()` accepts (decimal notation, without `inf` or `nan`) holds at least one decimal digit, so an empty or blank field (a line 2 cut short) is the `ValueError`; so is any text holding one of the information separators U+001C–U+001F |
| FloatParse.InfoSeparatorPadRejected | visibility.py:47 | a numeral padded with U+001C is rejected by `float()` even though `str.strip` would remove that padding |
| FloatParse.ParseRenderFixed | visibility.py:47 | `float()` of a fixed-point numeral, with any leading whitespace other than U+001C–U+001F, is that numeral's exact value |
| Period.OrbitalPeriod | visibility.py:35-50 | an unparsable mean-motion field is an error; a zero field is the division error; otherwise the period is 1440 divided by the parsed mean motion |
| Period.PeriodOfFixedField | visibility.py:47-49 | for a line 2 whose columns 53–63 hold a fixed-point number padded on the left with whitespace other than U+001C–U+001F, a zero field is the division error and a positive one gives a period of 1440 divided by that number |
| Period.StepMinutes | visibility.py:74 | the step is at least one minute and at least a sixtieth of the period, and it is one of the two |
| Period.SamplesPerRevolution | visibility.py:74 | over one revolution of 60 minutes or more the grid visits exactly 61 instants (both ends included); a shorter period samples every minute |
| Period.SampleCount | visibility.py:79-125 | grid instant k is visited exactly when k is below the count, i.e. exactly when `start + k*step` is not past the end of the window |
| PassScanner.Step | visibility.py:91-123 | after a sample the scan is inside a pass exactly when the sample is above the threshold, or it was already inside and the sample is not at or below it; a sample not at or below the threshold emits nothing; a propagation error changes nothing |
| PassScanner.Run | visibility.py:85-125 | every pass emitted after n samples was closed by one of those samples |
| PassScanner.PassesSound | visibility.py:96-123 | every emitted pass starts at a rise and is closed by the first later sample at or below the threshold; its peak is the largest elevation inside it, at its first occurrence; each pass closes before the next rises |
| PassScanner.PassesComplete | visibility.py:96-123 | every rise that a later sample at or below the threshold closes inside the window is emitted as a pass with that rise and that close |
| PassScanner.PassShape | visibility.py:96-107 | an emitted pass rises no later than its peak and peaks before it closes; its peak is strictly above the threshold and is the elevation of the peak sample |
| PassScanner.PassSampleBounds | visibility.py:96-107 | every successful sample inside a pass is above the threshold and at most the peak; before the peak index it is strictly below the peak |
| PassScanner.OpenPassDropped | visibility.py:85-127 | a pass still open when the window ends appears in no record, and the scan ends inside it |
| PassScanner.ClosedRunCovered | visibility.py:96-123 | an above-threshold sample followed later by one at or below the threshold lies in some emitted pass |
| PassPrediction.PredictPasses | visibility.py:53-85 | a period error is returned unchanged; otherwise the passes are those of the window of `hours_ahead` hours from the start, sampled at the step derived from the period |
| PassPrediction.ScanLoop | visibility.py:79-127 | the loop, with its flag, pass start, running maximum and clock, terminates and produces the same records as the index-level state machine |
| PassPrediction.GridMonotone | visibility.py:125 | advancing the clock by a positive step orders grid instants exactly as their indices |
| PassPrediction.RecordOfSpan | visibility.py:109-112 | a record's start ≤ peak time ≤ end; its end is one step before the closing sample; its duration is end minus start, never negative, and zero exactly when the sample after the rise closed the pass |
| PassPrediction.WindowPassBounds | visibility.py:96-120 | every predicted pass lies inside the window with start ≤ peak time ≤ end and a non-negative duration; its peak is above the threshold and is what the propagator reported at the peak time |
| PassPrediction.WindowPassesOrdered | visibility.py:108-125 | predicted passes are in time order and do not overlap: one pass's end plus a step comes before the next start |
| PassPrediction.WindowPassPeak | visibility.py:96-107 | every successful grid sample within a pass's time span is above the threshold and at most the reported maximum, and strictly less before the reported peak time |
| PassPrediction.NextPassInfo | visibility.py:130-150 | no next pass exactly when the list is empty; otherwise the first pass and its start minus now |
| PassPrediction.NextPassIsEarliest | visibility.py:140-145 | on predicted passes, the reported wait is the smallest over all passes; it is non-negative when now is not after the scan's start |
| TleCatalog.CatalogLines | tle.py:31 | the catalog lines contain no newline and joined by newlines give the stripped text |
| TleCatalog.HitIndicesFrom | tle.py:35-38 | every line index the three-step scan collects is a record start, from the starting line on, whose name test succeeded |
| TleCatalog.HitIndicesFromComplete | tle.py:35-38 | every record start from the starting line on whose name test succeeded is collected |
| TleCatalog.MatchIndicesExact | tle.py:35-38 | a line index is collected exactly when the scan visits it, two element lines follow it, and its name matches; the indices are strictly increasing |
| TleCatalog.MatchesFrom | tle.py:34-38 | the entries the scan appends are, in order, the stripped name and element lines of the records at the collected indices |
| TleCatalog.MatchIndices | tle.py:35-38 | every collected name line opens a complete record whose stripped, lower-cased name contains the query |
| TleCatalog.Matches | tle.py:34-38 | the matches are, in catalog order, the records opened at the collected name lines |
| TleCatalog.EntriesAtIndex | tle.py:38 | the k-th collected entry holds the stripped lines of the k-th collected record |
| TleCatalog.MenuLines | tle.py:51-53 | the menu lists the first min(n, 10) matches, the k-th labelled with the decimal number k+1 |
| TleCatalog.ParseChoice | tle.py:56-59 | an answer is accepted exactly when it is a non-empty run of digits whose value lies between 1 and min(n, 10), leading zeros allowed; the entry taken is that value minus one; an answer holding a non-digit is rejected |
| TleCatalog.FirstValid | tle.py:55-61 | the chosen answer is valid and every answer before it was invalid; no choice exactly when no answer is valid |
| TleCatalog.Select | tle.py:40-61 | "not found" exactly when there is no match; one match or JSON mode gives the first; with several matches and no JSON mode, the entry named by the first valid answer is returned; any success is one of the first ten matches; running out of answers happens exactly with several matches, no JSON mode, and no valid answer |
| TleCatalog.FetchTle | tle.py:31-41 | the "not found" error carries the lower-cased name |
| TleCatalog.FetchNotFound | tle.py:31-41 | the lookup reports "not found" exactly when no complete record's name contains the query, ignoring ASCII case |
| TleCatalog.FetchReturnsMatch | tle.py:34-60 | whatever the lookup returns is the pair of stripped element lines of a record whose name matches, and that record is one of the first ten collected |
| TleCatalog.FetchTakesFirst | tle.py:43-49 | with a single match or in JSON mode the lookup returns the first matching record of the catalog |
| TleCatalog.LeadingZeroAccepted | tle.py:57-59 | the answer `01` is read as the first entry whenever there is at least one match |
| TleCatalog.MenuNumberSelects | tle.py:51-60 | typing the number shown beside a menu name, after any invalid answers, selects that name's record |
| TleCatalog.FirstValidAfterInvalid | tle.py:55-61 | after a run of invalid answers, the first valid answer is the one taken, at its position |

## Left out

- SGP4 propagation, `jday`, the ECI-to-geodetic and geodetic-to-AER conversions (numpy, pymap3d, sgp4): replaced by the injected `elevationAt`. Floating-point arithmetic in general is modelled as exact real arithmetic.
- `PassPrediction.PredictPasses`: the year 1–9999 range of `datetime` is not modelled. Times are unbounded reals, so a window end (visibility.py:77) or a grid instant (visibility.py:125) outside that range, which makes Python raise `OverflowError`, gives passes in the model instead. This happens for an `hours_ahead` in the tens of millions or a step of billions of minutes from a tiny mean motion.
- `datetime.now` in `predict_passes` and `get_next_pass_info`: the clock readings are parameters.
- Rounding the step to whole microseconds: `timedelta` does this, and the model instead adds the exact step in real minutes.
- The output fields: ISO-8601 formatting of the times with the appended `Z`, `round(…, 2)` for the elevation and `round(…, 1)` for durations and waits. Records carry the unrounded values in minutes. The parse of the `Z`-suffixed start string in `get_next_pass_info` is likewise not modelled.
- `FloatParse.ParseFloat`: does not accept `inf`, `nan`, digit-group underscores or non-ASCII digits. Those never occur in a well-formed mean-motion field.
- `Text.Lower`: lower-cases ASCII letters only. Python's `str.lower` is Unicode-wide.
- `TleCatalog.ParseChoice`: treats only ASCII `0`–`9` as digits. Python's `str.isdigit` also accepts other Unicode digits, for which `int()` may raise. It also has no digit limit: an answer of more than 4300 digit characters makes `int()` raise `ValueError` (CPython 3.11 and later), so the lookup fails, whereas the model rejects such an answer or, with leading zeros, accepts it.
- The cache and download half of `fetch_tle` (tle.py:9-29): file times, the HTTP request and the `RuntimeError` on a non-200 status are I/O. The catalog text is a parameter.
- Reading `--json` from `sys.argv`: a boolean parameter. `print` and `input` are I/O; the menu's text and the typed answers are modelled as strings.
- The re-prompt loop reads answers until one is valid or `input()` raises `EOFError`: modelled over a finite sequence of answers, ending in `NoValidChoice` (the `EOFError`) when none is valid.
- `orbit.py`, `output.py`, `cli.py`, `main.py` and `plot_earth.py` are not part of this model (position calculation, formatting, argument handling and plotting).
