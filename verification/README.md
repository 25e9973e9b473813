# Pour-over brewing arithmetic

A Dafny model of the computational core of `pourover.py`, a small Python 2
command-line helper for pour-over coffee. It turns the user's water, coffee
and ratio arguments into a (water, coffee) plan. It reads and writes "M:SS"
times. It also produces the pour schedule: a table of timestamps and
cumulative grams of water that starts with a bloom and spreads the rest up to the pour time.

The model is split into the following modules:

- `Wrappers` (`wrappers.dfy`): `Option` and `Result`.
- `Rounding` (`rounding.dfy`): Python 2 `round` on exact reals. It rounds to
  the nearest integer, and a tie goes away from zero.
- `BrewRatio` (`brew_ratio.dfy`): `validate`, `fix_ratio` and `normalize`.
  - An argument counts as supplied when Python's truth test accepts it,
    that is, when it is present and non-zero. The inputs are therefore
    `Option<int>` and `Option<real>`.
  - `Normalize` is the function as written. `NormalizeIntended` is the
    corrected version (see Findings).
- `NormalizeLaws` (`normalize_laws.dfy`): what each branch of `normalize`
  computes, and how the written and the intended coffee-and-ratio branches
  differ.
- `TimeCodec` (`time_codec.dfy`): `to_seconds` and `fmt_seconds`.
  - `to_seconds` splits the text on `':'` and applies Python 2 `int()` to
    each piece, then unpacks the pieces into minutes and seconds.
  - `fmt_seconds` is `"%d:%02d"` applied to the floor quotient and the
    remainder by 60.
  - Python's `/` and `%` floor. With the positive divisor 60 they coincide
    with Dafny's Euclidean operators, for negative numbers as well.
- `TimeCodecLaws` (`time_codec_laws.dfy`): split/join and parse/format round
  trips, and the exact conditions under which `to_seconds` succeeds.
- `PourSchedule` (`pour_schedule.dfy`): `water_for_bloom` and the loop of
  `print_steps`.
  - The loop is the recursive function `Schedule` and the while-loop method
    `Steps`, which is proved to return the same rows.
  - Each row is (timestamp in seconds, cumulative grams). Rows are returned
    instead of printed.
  - Python floats are exact reals.
  - The loop as written tests `timer == 0` to recognise its first pass. It
    is modelled separately, as `StepAsWritten` and `RunAsWritten`.

## Model

| member | source | states |
|---|---|---|
| BrewRatio.Validate | pourover.py:5-8 | The arguments are rejected exactly when water, coffee and ratio are all supplied (non-zero). The message is the fixed "can't specify all three" text. |
| BrewRatio.FixRatio | pourover.py:10-14 | A ratio above 1 is replaced by its reciprocal (result times ratio is 1). Any other ratio is returned unchanged. A positive ratio lands in (0, 1]. A non-zero ratio stays non-zero. |
| BrewRatio.FixRatioIsMin | pourover.py:10-14 | For a positive ratio, the canonical ratio is the smaller of the ratio and its reciprocal. |
| BrewRatio.FixRatioIdempotent | pourover.py:10-14 | Canonicalising a ratio twice gives the same result as canonicalising it once. |
| BrewRatio.FixRatioOrientation | pourover.py:10-14 | A positive ratio and its reciprocal have the same canonical form. So 14 and 1/14 describe the same brew. |
| Rounding.RoundIsNearest | pourover.py:25-27 | Python 2 `round` gives an integer within one half of its argument. A tie goes to the integer farther from zero. |
| Rounding.RoundPositive | pourover.py:56 | A value rounds to a positive integer exactly when it is at least one half. This is the loop guard `round(water_remaining) > 0`. |
| BrewRatio.Normalize | pourover.py:16-30 | `normalize` as written. Its contract is carried by the `NormalizeLaws` lemmas below: `WaterCoffeeIgnoresRatio`, `WaterRatioCoffeeIsNearest`, `CoffeeRatioWaterIsNearest` and `NoPairGivesDefaults`. |
| BrewRatio.NormalizeIntended | pourover.py:16-30 | `normalize` with the coffee-and-ratio branch corrected. Its contract is carried by `IntendedOnlyFixesCoffeeRatio` and `IntendedKeepsRatio`. |
| NormalizeLaws.WaterCoffeeIgnoresRatio | pourover.py:20-22 | With water and coffee, both are taken as given. The plan is the same with or without a ratio. |
| NormalizeLaws.NoPairGivesDefaults | pourover.py:17-30 | Without a usable pair, the plan is the one for no arguments at all, which is (210, 15). |
| NormalizeLaws.RejectedExactlyWhenRatioDropped | pourover.py:5-22 | `validate` rejects exactly the arguments for which `normalize` would take the water-and-coffee branch and ignore a supplied ratio. |
| NormalizeLaws.WaterRatioCoffeeIsNearest | pourover.py:23-25 | With water and ratio, the water is kept, and the coffee is within half a gram of water × canonical ratio. |
| NormalizeLaws.WaterRatioCanonical | pourover.py:23-25 | With water and ratio, the plan depends on the ratio only through its canonical form. |
| NormalizeLaws.WaterRatioOrientation | pourover.py:10-25 | With water supplied, a ratio of r and a ratio of 1/r give the same plan. |
| NormalizeLaws.CoffeeRatioWaterIsNearest | pourover.py:26-28 | As written, with coffee and ratio, the coffee is kept, but the water is within half a gram of 15 / canonical ratio, where 15 is the default coffee amount. |
| NormalizeLaws.CoffeeRatioIgnoresCoffee | pourover.py:26-28 | With coffee and ratio, the water returned is the same whatever coffee amount is supplied. |
| NormalizeLaws.CoffeeRatioCounterexample | pourover.py:17-28 | 20 g of coffee at 14:1 gives 210 g of water as written, not 280 g. |
| NormalizeLaws.IntendedOnlyFixesCoffeeRatio | pourover.py:16-30 | The corrected `normalize` agrees with the written one outside the coffee-and-ratio branch. Both keep the user's coffee in that branch. |
| NormalizeLaws.IntendedKeepsRatio | pourover.py:26-28 | With coffee and ratio, the corrected water is within half a gram of coffee / canonical ratio. |
| NormalizeLaws.IntendedAgreesAtDefaultCoffee | pourover.py:18-28 | When the supplied coffee is the default 15 g, the written and the corrected branches agree. |
| NormalizeLaws.IntendedCoffeeRatioExample | pourover.py:26-28 | With the correction, 20 g of coffee at 14:1 gives 280 g of water. |
| Rounding.Round | pourover.py:25-27 | Python 2 `round` followed by `int`. Its contract is `RoundIsNearest`. |
| TimeCodec.ParseInt | pourover.py:37 | Python 2 `int()` on a string. Its contract is carried by `ParseIntMeaning` and `ParseIntToString`. |
| TimeCodec.ToSeconds | pourover.py:36-38 | `to_seconds`. Its contract is carried by `ToSecondsMeaning`, `FormatThenParse` and `ParseThenFormat`. |
| TimeCodec.FmtSeconds | pourover.py:40-41 | `fmt_seconds`. Its contract is carried by `FmtParts` and `FormatThenParse`. |
| TimeCodec.IntToString | pourover.py:41 | `"%d"`. Its contract, that `int()` reads it back, is `ParseIntToString`. |
| TimeCodec.Pad2 | pourover.py:41 | `"%02d"`. Its contract, that `int()` reads it back for a seconds value, is `ParsePad2`. |
| TimeCodec.Split | pourover.py:37 | `str.split(':')` returns one more piece than there are colons, and no piece contains a colon. |
| TimeCodec.Collect | pourover.py:37 | The list comprehension succeeds exactly when every piece parses, and then yields the pieces' values. Otherwise the error names the leftmost piece that does not parse. |
| TimeCodec.Unpack | pourover.py:37-38 | Unpacking succeeds exactly when there are two pieces and both parse, and the result is 60 × minutes + seconds. A wrong piece count is reported only when every piece parsed. A non-integer piece is reported as the leftmost failing piece. |
| TimeCodecLaws.JoinSplit | pourover.py:37 | Joining the pieces of a split with the separator gives back the original text. |
| TimeCodecLaws.SplitJoin | pourover.py:37 | Splitting the join of separator-free pieces gives back the pieces. |
| TimeCodecLaws.ParseIntMeaning | pourover.py:37 | `int()` succeeds exactly on an optional sign followed by at least one decimal digit, after surrounding whitespace is stripped. For plain digits the value is their decimal value. |
| TimeCodecLaws.ParsePlusDigits | pourover.py:37 | `int()` reads a plus sign followed by digits as their decimal value. |
| TimeCodecLaws.ParseNegDigits | pourover.py:37 | `int()` reads a minus sign followed by digits as their negated decimal value. |
| TimeCodecLaws.ParseIntToString | pourover.py:37-41 | `int()` reads back the text that `"%d"` writes, for every integer including negative ones. |
| TimeCodecLaws.ParsePad2 | pourover.py:37-41 | `int()` reads back the text that `"%02d"` writes for a seconds value. |
| TimeCodecLaws.ToSecondsMeaning | pourover.py:36-38 | `to_seconds` succeeds exactly when the text has one colon and both sides are integers, and the result is 60 × M + S. Otherwise it fails, and a non-integer piece is reported before a wrong number of pieces. |
| TimeCodecLaws.FmtParts | pourover.py:40-41 | `fmt_seconds(60m + s)` with 0 ≤ s < 60 is m in decimal, a colon, and s padded to two digits. |
| TimeCodecLaws.FormatThenParse | pourover.py:36-41 | `to_seconds(fmt_seconds(n)) == n` for every integer n, negative ones included. |
| TimeCodecLaws.ParseThenFormat | pourover.py:36-41 | Any canonical "M:SS" text (no leading zero in M, SS between 00 and 59) parses, and formats back to itself. |
| PourSchedule.Steps | pourover.py:50-70 | The while loop produces exactly the rows of `Schedule`. The first row is (0, 2 × coffee). If the loop is never entered, the timing can be anything, and that row is the only one. Otherwise there are at most (pour − bloom) / increment + 3 rows. The last row has poured at least the target water. |
| PourSchedule.WaterForBloom | pourover.py:32-34 | `water_for_bloom`. Its contract, that the first row pours twice the coffee and the second four times, is carried by `ScheduleOpening`. |
| PourSchedule.Schedule | pourover.py:50-70 | The loop's rows with the first pass taken exactly once, the corrected loop. Its contract is carried by `Steps` and the `Schedule…` lemmas below. `AsWrittenAgrees` relates it to the loop as written. |
| PourSchedule.Pouring | pourover.py:56 | The loop guard `round(water_remaining) > 0`. Its contract is `RoundPositive`: the guard holds exactly when at least half a gram is left. |
| PourSchedule.Row | pourover.py:70 | The printed row: the timer and `round(water - water_remaining)`. Its contract is carried by `ContinueTarget`, `ContinueGrams` and `ScheduleOpening`. |
| PourSchedule.Continue | pourover.py:56-70 | The rows of the passes after the first. Its contract is carried by `ContinueLength`, `ClampIsFinal` and the tracking lemmas. |
| PourSchedule.FirstPass | pourover.py:57-63 | The first-pass branch. Its contract is `FirstPassTracks`. |
| PourSchedule.LaterPass | pourover.py:64-69 | The clamp branch and the increment branch. Their contract is carried by `LaterPassTracks` and `ClampIsFinal`. |
| PourSchedule.StepAsWritten | pourover.py:57-69 | One pass of the loop as written, which tests `timer == 0`. Its contract is carried by `AsWrittenAgrees`, `BloomZeroStalls` and `TimerReturnsToZero`. |
| PourSchedule.RunAsWritten | pourover.py:56-70 | The rows of the loop as written, for at most a given number of passes. Its contract is carried by the same three lemmas. |
| PourSchedule.ScheduleOpening | pourover.py:50-63 | The opening rows, with the printing at line 70. The first row is (0, 2 × coffee), and it is the only row exactly when water − 2 × coffee ≤ 0. Otherwise the second row is (bloom, 4 × coffee), because the bloom water is subtracted twice. When that exhausts the water the schedule stops there, even above the target. |
| PourSchedule.ScheduleBound | pourover.py:56-69 | Under a positive increment and a pour time after the bloom time, the loop makes at most (pour − bloom) / increment + 2 passes. |
| PourSchedule.ContinueLength | pourover.py:64-69 | From any pass after the first, at most (pour − timer) / increment + 2 rows remain. |
| PourSchedule.ScheduleTimes | pourover.py:56-70 | After the bloom row, timestamps increase strictly, starting no earlier than the bloom time and never passing the pour time. With a non-negative bloom time, every timestamp lies in [0, pour]. |
| PourSchedule.ScheduleTimesNeverDecrease | pourover.py:50-70 | With a non-negative bloom time, timestamps never decrease over the whole schedule. |
| PourSchedule.ClampIsFinal | pourover.py:64-70 | When the next increment would overshoot, the loop prints exactly one more row, (pour time, water), and stops. |
| PourSchedule.ScheduleAtPour | pourover.py:56-70 | After the bloom row, any row stamped with the pour time is the last row and has poured exactly the target water. This holds whether the pour time is reached by the clamp or by exact increments. |
| PourSchedule.ContinueEndsAtPour | pourover.py:56-70 | From any pass after the first, with water left after the double bloom, the last row is stamped with the pour time exactly when at least half a gram is still to pour at the last timer before the pour time. That timer is `LastGap` seconds before the pour time. |
| PourSchedule.ScheduleEndsAtPour | pourover.py:50-70 | Once the loop is entered, the last row is (pour time, water) exactly when both of these hold: water − 4 × coffee > 0, and 2 × (water − 4 × coffee) × (time from the last increment before the pour time to the pour time) ≥ pour − bloom. |
| PourSchedule.DefaultBrewEndsAtPour | pourover.py:50-70 | The default brew (210 g, 15 g, 2:30, 30 s bloom, 10 s increments) ends at (150, 210). |
| PourSchedule.SmallRemainderStopsEarly | pourover.py:56 | With 62 g of water and 15 g of coffee under the default timing, the last row has poured all 62 g but is stamped before 2:30. |
| PourSchedule.ScheduleTarget | pourover.py:56-70 | The last row has poured at least the target water. It has poured exactly the target when the water exceeds both twice and four times the coffee. |
| PourSchedule.ScheduleGrams | pourover.py:56-70 | When the water exceeds both twice and four times the coffee, the cumulative grams after the bloom row start at 4 × coffee, never decrease and never exceed the target. With non-negative coffee, they never decrease from the bloom row on. |
| PourSchedule.ScheduleSplits | pourover.py:56-63 | With water left after the bloom, the schedule is the bloom row followed by the rows of the passes after the first. The state after the first pass satisfies the tracking invariant. |
| PourSchedule.FirstPassTracks | pourover.py:57-63 | After the first pass, the per-step amount is the remainder's share of one increment out of (pour − bloom). |
| PourSchedule.LaterPassTracks | pourover.py:64-69 | Each later pass keeps the water still to pour proportional to the time still left before the pour time. |
| PourSchedule.TrackingFacts | pourover.py:62-68 | At the pour time nothing is left to pour. With positive water after the first pass, the remainder is never negative and each step is positive. |
| PourSchedule.AsWrittenAgrees | pourover.py:56-70 | When the bloom time is positive or not a multiple of the increment, the loop as written, which tests `timer == 0`, prints exactly the schedule. |
| PourSchedule.NegativeBloomAgrees | pourover.py:56-70 | With 210 g of water, 15 g of coffee, a bloom of −5 s, 10 s increments and a 20 s pour time, the loop as written and the corrected loop print the same rows. |
| PourSchedule.BloomZeroStalls | pourover.py:57-63 | With bloom time 0 and no coffee, the loop as written takes the first-pass branch on every pass and prints (0, 0) forever. |
| PourSchedule.TimerReturnsToZero | pourover.py:57-69 | With bloom −10 s and 10 s increments, the timer of the loop as written comes back to 0 and the first pass fires again. Its third row is (−10, 99), where the corrected loop prints (10, 79). |

## Left out

- `main` and the argparse handling (pourover.py:78-95): command-line plumbing. It covers the defaults "2:30", 30 and 10 and `exit(1)`.
- All printing (pourover.py:47-48, 53, 70): the model returns rows instead.
  - The `%8s` table layout is not modelled.
  - The bloom row prints its timestamp as the raw integer 0 rather than through `fmt_seconds`. Rows keep their timestamps in seconds.
  - `print_coffee_info` (pourover.py:72-76) only wires `normalize`, `to_seconds` and `print_steps` together with printing.
- `summary_str` (pourover.py:43-44): its only content is `%.03f` floating-point formatting of coffee/water.
- IEEE-754 floating point: Python floats are exact reals here.
  - The accumulated drift of `water_per_step` (pourover.py:62-68) is not modelled.
  - With exact arithmetic, when the increment divides (pour − bloom), a loop that gets to the pour time arrives there by exact increments with nothing left, not through the clamp.
  - A small remainder stops the loop earlier even then. An example is water 62, coffee 15, pour time 2:30, bloom 30 s and increment 10 s. Only 2 g are left after the double bloom, so each step pours 1/6 g. At 130 s a third of a gram is left, which rounds to 0, so the last row is (130, 62) (`SmallRemainderStopsEarly`).
  - Float-to-int conversion of large values is not modelled.
- Ending at the pour time: the code does not always end there, so the model does not claim it unconditionally. The loop stops as soon as the water still to pour rounds to zero or below. With a large coffee amount this can happen at the second row, at the bloom time (`ScheduleOpening` states exactly when). `ScheduleEndsAtPour` states exactly when the schedule ends at (pour time, water). The model follows the code.
- PourSchedule.Steps: once the loop is entered, it requires a positive increment and a pour time after the bloom time (`ValidTiming`). The source does not state this.
  - The loop is entered when water − 2 × coffee rounds above 0. Otherwise only the bloom row is printed, for any timing, and the model covers that case.
  - Once the loop is entered, an increment of 0 or equal pour and bloom times raises ZeroDivisionError at pourover.py:62-63.
  - With a negative increment or a pour time before the bloom time, the loop sometimes ends and sometimes runs forever, depending on the values. These timings are not modelled.
- PourSchedule.Schedule: models the corrected loop. `AsWrittenAgrees` proves the two agree when the bloom time is positive or is not a multiple of the increment, because then the timer of the loop as written never comes back to 0 (`NegativeBloomAgrees` is one such negative bloom). The loops differ when the timer comes back to 0 while water is still left to pour. That happens after a bloom time of 0 (`BloomZeroStalls`), or after a negative bloom time that is a multiple of the increment (`TimerReturnsToZero`). A bloom of 0 with no water left after the first pass stops before the difference shows. The timestamp and grams properties of the `Schedule…` lemmas hold of the corrected loop.
- TimeCodec.ParseInt: Python 2 `int()` also accepts whitespace between the sign and the digits (" - 5"). The model rejects such text.
  - The model does not read non-ASCII digits either. A Python 2 byte string never contains them.
- TimeCodecLaws.ParseIntMeaning: states the value only for unsigned digit strings. Signed values are covered by `ParsePlusDigits`, `ParseNegDigits` and `ParseIntToString`.

## Findings

| source | as written | input that shows it | evidently intended | confidence | as-written member | corrected member |
|---|---|---|---|---|---|---|
| pourover.py:26-28 | In the coffee-and-ratio branch, the water is `round(coffee / fix_ratio(ratio))`. Here `coffee` is still the local default 15 when line 27 runs. | `--coffee 20 --ratio 14` gives water 210, a 10.5:1 brew. | The water is the user's coffee divided by the ratio: 280 g for 20 g at 14:1. | not executed | NormalizeLaws.CoffeeRatioCounterexample | NormalizeLaws.IntendedKeepsRatio |
| pourover.py:57 | The first pass is recognised by `timer == 0`, so the first-pass branch fires again whenever the timer is 0 again. This happens on every pass after a bloom time of 0. It also happens after a negative bloom time that is a multiple of the increment. | `--water 5 --ratio 0.05 --bloom_time 0`: normalize gives coffee round(0.25) = 0. The remaining 5 g never change, and the loop prints 0:00 rows forever. With coffee above 0, the bloom water is subtracted again on every pass. Water 210, coffee 15, bloom −10, increment 10: the third row goes back to −10 s with 99 g (`TimerReturnsToZero`). | The bloom is subtracted once, on the first pass only, whatever the bloom time. | not executed | PourSchedule.BloomZeroStalls | PourSchedule.Steps |
