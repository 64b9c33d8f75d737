# SMVA frame extraction: a Dafny model

SMVA reads the status display of an MRI magnet from a screen recording. For
each sampled video frame it runs OCR on a region of interest and parses the
actual current (A), the MPS and MAG voltages (V) and the elapsed time
("HH:MM:SS") out of the recognised text. It checks the values against configured
limits and falls back to neighbouring frames when a frame cannot be read. It
also estimates the experiment's start and end times. The result is a list of
readings sorted by frame number.

This project models the decision logic of that pipeline and proves what it
promises. The video and the OCR engine are a single oracle
`read: int -> Option<string>`: the text recognised in frame `f`, or `None`
when seeking to or reading that frame fails.

- `optional.dfy`, module `Optional`: the `Option` type, for Python's `None`.
- `text.dfy`, module `Text`: the parts of Python's `str`, `int()` and `float()`
  the parser uses. These are `str.split`, `str.join`, `str.strip`, `str.upper`,
  substring tests, CPython's whitespace set, and decimal conversion with its
  `ValueError` cases.
- `ocr.dfy`, module `Ocr`: `parse_mri_data` and `time_string_to_seconds`
  (`src/smva/utils/ocr.py`).
  - The regular expressions are leftmost-search functions that follow the
    backtracking matcher for these patterns: a lazy gap, a greedy numeric
    token, greedy `\s*`, then the unit letter.
  - `parse_mri_data` is a method with the parser's four locals and its per-line
    loop. It is proved equal to the function `Parse`, and the lemmas are about
    `Parse`.
- `roundtrip.dfy`, module `RoundTrip`: the round trip of `parse_mri_data`. On the
  text of a frame that shows the four display lines, the parser returns the
  readings shown, each number as `float` reads it.
- `sorting.dfy`, module `Sorting`: `list.sort` / `sorted` with a key, as a
  stable insertion sort. It is proved sorted, a permutation and stable. It also
  holds the upper median `sorted(ts)[len(ts) // 2]` and its rank bounds.
- `extract.dfy`, module `Extract`: the core of `src/smva/extract.py`.
  - `validate_extracted_data`, `calculate_time_from_frame` and `try_parse_frame`.
  - `process_frame_with_fallback`, as a method with its loop, proved against the
    search function `FirstHit`.
  - `extract_time_from_frames`, as a method with its loop.
  - The sample frames, the pause threshold, the target frames, and the driver
    loop with its counters and final sort in `process_full_video`.

In `process_frame_with_fallback` and in the driver loop, `try_parse_frame` is
passed in as a function value `attempt`, with the capture, region, frame rate
and limits fixed. `Attempts(read, fps, cfg)` is that function for the oracle.

## Model

| member | source | states |
|---|---|---|
| Extract.Validate | src/smva/extract.py:102-156 | Accepted exactly when the current is within [current_min, current_max] and both voltages are within [voltage_min, voltage_max]. A rejection names the first failing check (current, then MPS, then MAG) with that value and its bounds, and every earlier check passed. |
| Extract.ValidateDefaults | src/smva/extract.py:103-106 | With no limits configured, a record is accepted exactly when -10 <= current <= 600 and -10 <= each voltage <= 15. |
| Extract.CalculateTimeFromFrame | src/smva/extract.py:15-30 | The precise time times fps is the frame number. The milliseconds are in 0..999 and are the integer part of 1000 times the fractional part of the time. |
| Extract.FrameResult | src/smva/extract.py:184-252 | An accepted frame's reading carries the frame number that was asked for. |
| Extract.AcceptedFrame | src/smva/extract.py:211-235 | A frame is accepted exactly when it can be read, its text parses, and the record passes validation. |
| Extract.ReadingOfRecord | src/smva/extract.py:237-250 | The reading built from a parsed record keeps its current, voltages and time string. Its time_sec is the clock's value, within 0..99:99:99. Its precise time times fps is the frame number, and time_ms is in 0..999. |
| Extract.AcceptedReading | src/smva/extract.py:224-250 | An accepted reading has a non-negative current. Its values are within the configured limits. Its time is a "dd:dd:dd" string whose time_sec is that clock's value. |
| Extract.AcceptedTime | src/smva/extract.py:237-245 | An accepted reading's precise time and milliseconds are those calculate_time_from_frame gives for its frame. |
| Extract.TryParseFrame | src/smva/extract.py:184-252 | The method's result equals FrameResult: read, parse_mri_data, validate, then build the reading. |
| Extract.Offsets | src/smva/extract.py:282-298 | The tried offsets start with the target itself (offset 0). |
| Extract.FirstHit | src/smva/extract.py:281-303 | A reading found at a neighbour is tagged with the target as original_frame and a non-zero fallback_offset. |
| Extract.FirstHitFound | src/smva/extract.py:281-303 | An untagged reading is the target frame's own. A tagged reading carries the target as original_frame and a non-zero offset from the tried list, and is the reading of the frame at that offset. |
| Extract.ProcessFrameWithFallback | src/smva/extract.py:255-305 | The method's loop returns the first accepted frame among target, +1, -1, +2, -2, ... up to the range. It skips negative frames, tags a neighbour with original_frame and fallback_offset, and gives None when all are rejected. |
| Extract.OffsetsMembers | src/smva/extract.py:286-298 | The tried offsets are exactly 0, +1..+n, and those -1..-n that keep the frame at or above 0. |
| Extract.OffsetsOrder | src/smva/extract.py:286-303 | A nearer neighbour is tried before a farther one. At equal distance the frame after the target is tried before the frame before it. |
| Extract.FirstHitNone | src/smva/extract.py:282-305 | The search gives None exactly when every tried frame is rejected. |
| Extract.FirstHitIsFirst | src/smva/extract.py:282-303 | A found reading is that of the first accepted offset, and every offset before it was rejected. |
| Extract.FallbackShape | src/smva/extract.py:281-303 | A direct hit is the target frame. A fallback hit has original_frame = target, a non-zero offset with abs(offset) <= range, and frame = target + offset. A negative offset never reaches below frame 0. |
| Extract.FallbackPlusTwo | src/smva/extract.py:287-294 | When the target and both neighbours at distance 1 fail and target+2 reads, the result is target+2's reading tagged with offset +2. |
| Extract.FallbackMinusOne | src/smva/extract.py:296-303 | When the target and target+1 fail and target-1 reads, the result is target-1's reading tagged with offset -1. |
| Extract.ExtractTimeFromFrames | src/smva/extract.py:33-77 | The method's loop returns EstimateTime: the times of the frames that read and parse, sorted, and the middle element taken; None when there are none. |
| Extract.CollectTimesEmpty | src/smva/extract.py:52-73 | No time is collected exactly when no sampled frame contributes one. |
| Extract.CollectTimesFrom | src/smva/extract.py:52-70 | Every collected time is the contribution of one of the sampled frames. |
| Extract.SampleTimeInRange | src/smva/extract.py:66-70 | A sampled frame's time in seconds lies in 0..99:99:99. |
| Extract.CollectTimes | src/smva/extract.py:50-70 | At most one time is collected per sampled frame. |
| Extract.EstimateTime | src/smva/extract.py:72-77 | The estimate is None exactly when no sampled frame reads and parses; otherwise it is one of the collected times. |
| Extract.EstimateTimeMedian | src/smva/extract.py:72-77 | The estimate is None exactly when no sample reads and parses. Otherwise it is one of the collected times, lies in 0..99:99:99, and has at most half the times below it and at most half above it. |
| Extract.StartSamples | src/smva/extract.py:350-352 | There are five start samples. For a non-negative frame count and interval, the i-th is frame_count // 20 + i * frame_interval: five percent into the video, then stepping by the interval. |
| Extract.EndSamples | src/smva/extract.py:353-355 | There are five end samples, none below frame 0. They start at the last frame, stay within 0..frame_count-1, and do not increase. |
| Extract.PauseThreshold | src/smva/extract.py:361-365 | A threshold exists exactly when both estimates exist and the end is after the start. It is 3/4 of the duration, hence strictly between 0 and the duration. |
| Extract.TargetFrames | src/smva/extract.py:376 | Every target is a frame of the video (0 <= f < frame_count) and a multiple of the interval. |
| Extract.TargetFramesMembers | src/smva/extract.py:376 | The targets are exactly the multiples of the interval in 0..frame_count-1, ceil(frame_count / frame_interval) of them. |
| Extract.TargetFramesOrder | src/smva/extract.py:376 | The targets start at 0, and later targets are at least one interval further on. |
| Extract.Run | src/smva/extract.py:385-417 | Every target is counted either as processed or as failed. Fallbacks are counted only with a success. processed equals the number of readings kept, and previous_result is the last reading kept. |
| Extract.ProcessTargets | src/smva/extract.py:385-417 | The method's loop over the targets leaves results, the three counters and previous_result as Run describes. |
| Extract.RunFramesNonNegative | src/smva/extract.py:391-410 | With non-negative targets, every kept reading comes from a frame at or above 0. |
| Extract.RunFramesBelow | src/smva/extract.py:391-410 | Every kept reading comes from a frame at most the range past some target. |
| Extract.RunFramesIncreasing | src/smva/extract.py:391-410 | When targets lie more than twice the range apart, the readings are kept in strictly increasing frame order. |
| Extract.TargetsKeptFrames | src/smva/extract.py:376-410 | Every reading kept over the target frames comes from a frame in 0 .. frame_count + range - 1. |
| Extract.WideIntervalSorted | src/smva/extract.py:376-422 | When the interval exceeds twice the fallback range, the final sort by frame leaves the results unchanged. |
| Extract.DuplicateFrames | src/smva/extract.py:376-410 | With interval 10 and range 5, on an 11-frame video, for any frame reader under which only frame 5 is accepted: the targets are 0 and 10, both fall back to frame 5, and frame 5's reading is kept twice. |
| Extract.FromZeroToFive | src/smva/extract.py:281-303 | When only frame 5 is accepted, target 0 falls back to offset +5. |
| Extract.FromTenToFive | src/smva/extract.py:281-303 | When only frame 5 is accepted, target 10 falls back to offset -5 after trying +1..+4, -1..-4 and +5. |
| Extract.SingleHit | src/smva/extract.py:281-303 | When exactly one tried offset's frame is accepted, the search finds it and returns that frame's reading. |
| Extract.ProcessFullVideo | src/smva/extract.py:308-439 | The output's start and end times are the estimates over the start and end samples, and the threshold is derived from them. processed_frames is the number of targets. successful + failed = processed_frames, and fallback_used <= successful = number of data rows. The data are the kept readings sorted by frame: in frame order and a permutation of them. |
| Ocr.FirstMatchAt | src/smva/utils/ocr.py:91-94 | The scan of re.search returns what the pattern gives at the position where it stops. |
| Ocr.FirstMatchFound | src/smva/utils/ocr.py:91-94 | Present implies found: a match at any later position makes the scan succeed. |
| Ocr.FirstMatchLeftmost | src/smva/utils/ocr.py:91-94 | A found match is the one at some position, and no earlier position matches. |
| Ocr.FirstMatchSkip | src/smva/utils/ocr.py:91-94 | Positions that do not match can be skipped without changing the result. |
| Ocr.FindToken | src/smva/utils/ocr.py:123 | A found per-line token matches `[+-]?[\d.]+`, and without a sign when the pattern has none. |
| Ocr.FindClock | src/smva/utils/ocr.py:150 | A found time has the shape `\d{2}:\d{2}:\d{2}`. |
| Ocr.SearchNumber | src/smva/utils/ocr.py:80-93 | A token found by a keyword pattern matches the pattern's numeric class. The current's token has no sign. |
| Ocr.SearchClock | src/smva/utils/ocr.py:86-94 | A time found after "Elapsed Time" has the shape `\d{2}:\d{2}:\d{2}`. |
| Ocr.FindTokenFound | src/smva/utils/ocr.py:123-141 | A token matching at any position from the start makes the per-line token search succeed. |
| Ocr.FindTokenLeftmost | src/smva/utils/ocr.py:123-141 | A found token is the match at some position, and no earlier position matches. |
| Ocr.FindClockFound | src/smva/utils/ocr.py:150 | A clock at any position from the start makes the time search succeed. |
| Ocr.FindClockLeftmost | src/smva/utils/ocr.py:150 | A found time is the clock at some position, and there is no clock before it. |
| Ocr.NumberAtFound | src/smva/utils/ocr.py:80-84 | The keywords at a position, then a token at or after their end, make a match at that position. |
| Ocr.SearchNumberFound | src/smva/utils/ocr.py:80-93 | A match at any start makes the keyword-pattern search succeed. |
| Ocr.SearchNumberLeftmost | src/smva/utils/ocr.py:80-93 | A found number comes from the leftmost start whose keywords are followed by a token, with nothing matching before it. |
| Ocr.ClockAfterFound | src/smva/utils/ocr.py:86 | "Elapsed Time" at a position, then a clock at or after its end, make a match at that position. |
| Ocr.SearchClockFound | src/smva/utils/ocr.py:86-94 | A match at any start makes the elapsed-time search succeed. |
| Ocr.SearchClockLeftmost | src/smva/utils/ocr.py:86-94 | A found time comes from the leftmost "Elapsed Time" start followed by a clock. |
| Ocr.FindClockNeedsColon | src/smva/utils/ocr.py:150 | The time search finds nothing in a text without ':'. |
| Ocr.SearchClockNeedsColon | src/smva/utils/ocr.py:86-94 | The elapsed-time search finds nothing in a text without ':'. |
| Ocr.FloatOf | src/smva/utils/ocr.py:96-112 | An unsigned token that float accepts gives a non-negative value. |
| Ocr.Lines | src/smva/utils/ocr.py:71 | Every kept line is non-empty, holds no line break, and neither starts nor ends with whitespace. |
| Ocr.NonBlank | src/smva/utils/ocr.py:71 | No kept line is empty after stripping or starts or ends with whitespace. |
| Ocr.PrimaryPass | src/smva/utils/ocr.py:88-115 | The combined-text searches yield a non-negative current and a "dd:dd:dd" time, when they find them. |
| Ocr.CombinedTextPass | src/smva/utils/ocr.py:88-115 | The method's four searches and guarded float conversions leave the four locals as PrimaryPass gives them. |
| Ocr.ScanLine | src/smva/utils/ocr.py:120-152 | One line of the fallback scan keeps a non-negative current and a "dd:dd:dd" time. |
| Ocr.ScanLines | src/smva/utils/ocr.py:118-152 | The line scan never overwrites a field that is already set, and it keeps every set field well formed. |
| Ocr.FinalFields | src/smva/utils/ocr.py:118-152 | After both passes every set field is well formed. |
| Ocr.Parse | src/smva/utils/ocr.py:154-162 | A returned record has a non-negative current and a "dd:dd:dd" time. |
| Ocr.ParseMriData | src/smva/utils/ocr.py:57-162 | The method with its locals and per-line loop returns Parse(text). |
| Ocr.ParseNeedsAllFour | src/smva/utils/ocr.py:154-162 | A record comes back exactly when all four fields were found, and it holds those four values. |
| Ocr.FinalFieldsKeepPrimary | src/smva/utils/ocr.py:118-152 | Every field found in the combined-text pass keeps its value after the line scan. |
| Ocr.PrimaryFieldsKept | src/smva/utils/ocr.py:88-162 | Every field found in the combined-text pass is the value in the returned record. |
| Ocr.ScanIdleWhenComplete | src/smva/utils/ocr.py:118-152 | On fields that are all set, the line scan changes nothing. |
| Ocr.NoClockNoRecord | src/smva/utils/ocr.py:148-162 | A text without any ':' yields no record, however well the other values read. |
| Ocr.FullTextHasNoNewline | src/smva/utils/ocr.py:71-88 | The joined text holds no line break. |
| Ocr.TimeToSeconds | src/smva/utils/ocr.py:165-185 | A string without exactly two ':' converts to 0. A string without '-' never converts to a negative number of seconds. |
| Ocr.TimeOfClock | src/smva/utils/ocr.py:165-185 | A "dd:dd:dd" string converts to hours*3600 + minutes*60 + seconds of its digits, within 0..99:99:99. |
| Ocr.TimeOfThreeParts | src/smva/utils/ocr.py:175-183 | Any three colon-free parts that int() accepts, of whatever width or sign, convert to hours*3600 + minutes*60 + seconds of their values. |
| Ocr.TimeRoundTrip | src/smva/utils/ocr.py:165-185 | Converting a formatted "HH:MM:SS" gives back h*3600 + m*60 + s. |
| Ocr.TimeExample | src/smva/utils/ocr.py:165-185 | "01:02:03" converts to 3723. |
| Ocr.TimeTwoParts | src/smva/utils/ocr.py:175-177 | A string that does not split into exactly three parts ("1:2") converts to 0. |
| Ocr.TimeOfRejectedPart | src/smva/utils/ocr.py:175-185 | Any three colon-free parts of which int() rejects at least one convert to 0, whatever the other two parts are. |
| Ocr.TimeBadPart | src/smva/utils/ocr.py:179-185 | An instance of the rejected-part case: "01:02:xx" converts to 0. |
| Ocr.ParsedTimeInRange | src/smva/utils/ocr.py:165-185 | The time of a parsed record converts without error to its clock value, within 0..99:99:99. |
| Text.ParseFloat | src/smva/utils/ocr.py:96-100 | float of an unsigned or '+' token is non-negative when it succeeds. |
| Text.ParseFloatMinus | src/smva/utils/ocr.py:96-112 | float reads "-x" as the negation of "x" for an unsigned token x, and rejects it exactly when it rejects x. |
| Text.ParseFloatPlus | src/smva/utils/ocr.py:96-112 | float reads "+x" exactly as "x". |
| Text.ParseFloatNegative | src/smva/utils/ocr.py:102-112 | float reads a negative decimal "-ip.fp" as -(ip + fp / 10^len(fp)). |
| Text.NegatedToken | src/smva/utils/ocr.py:102-112 | A minus sign in front of a token that float reads as v makes it read as -v. |
| Text.ParseFloatDecimal | src/smva/utils/ocr.py:96-100 | float reads an unsigned "ip.fp" back as ip + fp / 10^len(fp), the inverse of writing a decimal. |
| Text.ParseFloatDigits | src/smva/utils/ocr.py:96-100 | float reads a digit string back as its integer value. |
| Text.ParseFloatAccepts | src/smva/utils/ocr.py:96-100 | On any token of digits and dots with an optional sign, float succeeds exactly when the token has at most one dot and at least one digit. |
| Text.ParseFloatRejects | src/smva/utils/ocr.py:96-100 | On any such token with two dots or more, or without a digit, float fails. |
| Text.ParseFloatTwoDots | src/smva/utils/ocr.py:96-100 | An instance of the rejection: "1.2.3" (two dots) is rejected. |
| Text.ParseFloatNoDigit | src/smva/utils/ocr.py:96-100 | Instances of the rejection: "." and "-." (no digit) are rejected. |
| Text.ParseInt | src/smva/utils/ocr.py:179-183 | int gives a negative value only for a string holding '-'. |
| Text.SplitCount | src/smva/utils/ocr.py:175 | split gives one more part than there are separators. |
| Text.ParseIntDigits | src/smva/utils/ocr.py:179-183 | int reads a digit string back as its value. |
| Text.ParseIntNeedsDigit | src/smva/utils/ocr.py:179-185 | int accepts nothing that lacks a digit. |
| Text.SplitThenJoin | src/smva/utils/ocr.py:175 | Joining the pieces of a split gives back the string. |
| Text.JoinThenSplit | src/smva/utils/ocr.py:175 | Splitting a join of separator-free pieces gives back the pieces. |
| Text.Strip | src/smva/utils/ocr.py:71 | strip removes only leading and trailing whitespace and leaves none at either end. |
| Sorting.SortBy | src/smva/extract.py:422 | The sort by key puts the results in key order and keeps the same elements. |
| Sorting.SortByStable | src/smva/extract.py:422 | The sort is stable: elements with equal keys keep their relative order. |
| Sorting.SortBySorted | src/smva/extract.py:422 | Sorting an already sorted list changes nothing. |
| Sorting.Median | src/smva/extract.py:75-77 | The median is one of the times. |
| Sorting.MedianBelow | src/smva/extract.py:75-77 | At most len // 2 times lie below the median. |
| Sorting.MedianAbove | src/smva/extract.py:75-77 | At most len - 1 - len // 2 times lie above the median. |
| Sorting.MedianBetween | src/smva/extract.py:75-77 | The median lies between the smallest and the largest time. |
| RoundTrip.ParseDisplay | src/smva/utils/ocr.py:57-162 | On a frame showing "ACTUAL CURRENT c A", "MPS VOLTS v1 V", "MAG VOLTS v2 V" and "Elapsed Time k" on four lines, with an unsigned current, optionally signed voltages that float accepts and a "dd:dd:dd" clock, the parser returns float(c), float(v1), float(v2) and k. |
| RoundTrip.ParseDisplayDigits | src/smva/utils/ocr.py:57-162 | On a frame showing a whole-number current and whole-number voltages, each voltage with or without a minus sign, the parser returns their values with their signs and the clock. |
| RoundTrip.SignedDigits | src/smva/utils/ocr.py:96-112 | A digit string, with or without a minus sign, is a numeric token that float reads as its signed value. |
| RoundTrip.DisplayLines | src/smva/utils/ocr.py:71 | Splitting the frame text at line breaks and stripping gives back its four lines. |
| RoundTrip.CombinedSearches | src/smva/utils/ocr.py:88-94 | In the joined text of the four lines, each of the four searches finds the reading on its own line. |

## Left out

- Video I/O, the OCR engine and image preprocessing are one oracle, `read`. Capture objects, seeking, cropping and `release` are not modelled.
- The file dialog, `run_extract`, loading the YAML configuration, `get_video_metadata`, writing the JSON file and every `print` are left out. The summary prints matter only in two places:
  - their `validation_config[...]` lookups give the precondition `HasSummaryKeys` of `ProcessFullVideo`;
  - the success-rate division gives its precondition `frameCount >= 1`.
- The echoed `video` name and `validation_config` are not fields of `Extraction`.
- Extract.ProcessFullVideo: requires `fps != 0`. The source fails on a zero frame rate only once a frame is accepted.
- Extract.Validate: the time-consistency rule is commented out in the source, so it is not modelled. `previous_data` and `max_pause_threshold` are therefore not inputs, and the driver's `previous_result` is tracked but affects no verdict.
- Extract.CalculateTimeFromFrame: exact rational arithmetic instead of IEEE doubles. `round(time_sec_precise, 3)` in the reading is not modelled; the reading keeps the exact quotient.
- Extract.StartSamples: `frame_count * 0.05` is computed exactly as `frame_count / 20`. The double rounding of 0.05 is not modelled.
- Extract.PauseThreshold: `0.75 * duration` is exact.
- Extract.TargetFrames and Extract.ProcessFullVideo: require `interval >= 1`. With an interval of 0, `range(0, frame_count, 0)` at `src/smva/extract.py:376` raises `ValueError`. A negative interval gives no targets. The only caller passes 10 (`src/smva/extract.py:479`).
- Extract.ProcessFrameWithFallback: the frame reader is passed in as a function value. The capture's position, which each `cap.set` moves, is not part of the state.
- Extract.ProcessTargets and Ocr.CombinedTextPass are methods split out of `process_full_video` and `parse_mri_data`: the driver loop and the combined-text searches. Their bodies are the source's statements.
- Ocr.TimeToSeconds: returns the integer `0` where the source returns `0.0`. The value is the same.
- Ocr.SearchNumber: the `.` of `.*?` in the combined patterns matches any character. `Ocr.FullTextHasNoNewline` proves the joined text has no line break, so this is exact.
- Text.IsDigit: `\d` and `int()` are modelled on ASCII digits only. Python also accepts other Unicode decimal digits.
- Text.Upper: `str.upper` and `re.IGNORECASE` fold case for ASCII letters only.
- Text.ParseFloat: covers only the tokens the patterns capture (`[+-]?[\d.]+`). The value is an exact real, not a double.
- Text.ParseInt: underscores between digit groups are accepted as Python does. Whitespace is CPython's `str.isspace` set.
- No signal-cleaning pass is modelled. `src/smva/plot.py` plots the raw series, and `src/smva/analyze.py` only loads an already-cleaned file.
- Plotting, ROI selection (`setup_roi.py`, `utils/roi.py`) and the command-line entry point are outside the modelled core.
