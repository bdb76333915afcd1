# Gipfel Lodge booking dashboard — analytics core in Dafny

This project models the data pipeline behind the Gipfel Lodge booking
dashboard (`JS/app.js`). The pipeline takes the rows of a booking
spreadsheet and:

- parses their numbers (`toNumber`) and dates (`toDate`);
- classifies each row by channel (`guessChannel`) and owner flag (`isOwnerBooking`);
- normalises the rows into booking records (`normalizeRows`);
- computes the KPI tiles (`computeKPIs`), in gross or net mode (`valueByMode`, net being 76% of gross);
- aggregates the records into the data behind each chart (`aggRevenueByMonth`, `aggBookingsNightsByMonth`, `aggLeadTime`, `aggRevenueByChannel`, `aggGuestPie`, `aggFreeNightsByWeek`, `aggCumulativeRevenue`);
- finds the free stretches between stays (`computeGaps`);
- suggests a discount for each free stretch (`advice`).

Modules follow the program's parts:

| module | models |
|---|---|
| `Wrappers` | `Option` |
| `Text` | the string built-ins the code relies on (`trim`, `toLowerCase`, `includes`, `replace`, `split(..)[0]`, `String(n)`, `padStart(2, "0")`, the default string order of `sort()`) |
| `Seqs` | `filter`, `map`, `reduce` sums, a `Map`'s key order (`Dedup`), and `sort` as a stable insertion sort `SortBy` |
| `Calendar` | local calendar days as day numbers: `getFullYear`, `getMonth`, `getDay`, `new Date(y, m, d)` with its month/day roll-over and its reading of years 0..99 as 1900..1999 |
| `Parsers` | the cell values of a row, `safeStr`, `toNumber`, `toDate` |
| `Classify` | `guessChannel`, `isOwnerBooking` |
| `Bookings` | the record `normalizeRows` builds, `valueByMode`, sorting by arrival |
| `Kpis` | `computeKPIs` |
| `Tally` | the `Map`-filling loops that several charts share |
| `Monthly` | `aggRevenueByMonth`, `aggBookingsNightsByMonth` |
| `LeadTime` | `daysBetween`, `aggLeadTime` |
| `Channels` | `aggRevenueByChannel`, `aggGuestPie` |
| `IsoWeek` | `isoWeekKey` |
| `Occupancy` | `buildOccupiedNightSet`, `aggFreeNightsByWeek` |
| `Gaps` | `computeGaps`, `advice` |
| `Timeline` | `aggCumulativeRevenue` |

Representation choices:

- A date is an integer day number (`Calendar.Day`, day 0 being 1 January 1970). The time of day and time zones are dropped, so the code's several `startOfDay` calls become the identity.
- Money and night counts are `real`.
- The fallback `new Date(v)` for date text that is not `dd-mm-yyyy` is a parameter `host`: a function from text to an optional day.
- The global `mode` toggle is a `Mode` argument.
- A JavaScript `Map` that the code fills and then reads back in key order becomes a Dafny `map` plus the sequence of its keys in insertion order.
- Keys the code assembles as strings are modelled by the values they encode: the `"yyyy-mm"` month keys become `MonthId`, and channel labels become `Classify.Channel`. Lemmas prove the encoding injective (`MonthKeyInjective`, `CompactMonthKeyInjective`, `LabelInjective`), so keying by the value merges exactly what keying by the string merges.
- The occupied-night set holds day numbers, not `toISOString()` text.

## Model

| member | source | states |
|---|---|---|
| Parsers.IndexOfAny | JS/app.js:66 | the index of the first character of a set, or the length when there is none; characters before it are all outside the set |
| Parsers.ToNumber | JS/app.js:61-70 | computes, as written: a number cell is itself; a text cell is trimmed, is no number when empty or `-`, and otherwise is what `Number` reads once its first comma becomes a point; any other cell is no number |
| Parsers.ToNumberBlank | JS/app.js:64-65 | a string that trims to empty or to `-` is no number |
| Parsers.ToNumberOtherCells | JS/app.js:61-70 | a cell that is neither a number nor a string is no number |
| Parsers.ToNumberDigits | JS/app.js:63-67 | a string of decimal digits reads as its value |
| Parsers.ToNumberNatural | JS/app.js:63-67 | the decimal text of a natural number reads back as that number |
| Parsers.ToNumberDecimalComma | JS/app.js:66 | `whole,fraction` reads as the decimal `whole.fraction`: the first comma is the decimal separator |
| Parsers.ToNumberTwelveAndAHalf | JS/app.js:66 | `"12,5"` reads as 12.5 |
| Parsers.ToNumberThousands | JS/app.js:66-67 | `"1.234,50"` is no number: a Dutch thousands separator is not understood |
| Parsers.TwoPoints | JS/app.js:66-67 | text with two decimal points is no number |
| Parsers.NumberOfPlain | JS/app.js:66 | text that starts with a digit followed by a digit or a point is read as an unsigned decimal |
| Parsers.ParseDecimal | JS/app.js:66 | `whole.fraction` reads as the digits together scaled down by 10 to the length of the fraction |
| Parsers.ParseDigits | JS/app.js:66 | a run of digits reads as its own value |
| Parsers.ToDate | JS/app.js:72-88 | computes, as written: a date cell is itself; for a text cell, the part before the first space, trimmed, when it matches `d{1,2}-d{1,2}-d{4}` is the local day `new Date(yyyy, mm - 1, dd)` (days and months past their end roll over, years 0..99 land in 1900..1999); any other text goes to the host's `new Date(v)`; any other cell is no date |
| Parsers.ToDateDmyText | JS/app.js:75-81 | `dd-mm-yyyy` with 1–2, 1–2 and 4 digits, optionally followed by a space and a note, reads as `new Date(yyyy, mm - 1, dd)`, whatever the fallback parser says |
| Parsers.DmyMatches | JS/app.js:77-79 | the pattern captures the day, month and year digits of such text |
| Parsers.ToDateOfToken | JS/app.js:75-81 | a text whose part before the first space trims to a `dd-mm-yyyy` match reads as that match's `new Date(yyyy, mm - 1, dd)` |
| Parsers.DigitsWithPoints | JS/app.js:66-67 | digits, a point, digits, a point and digits never form a decimal |
| Parsers.ToDateRoundTrip | JS/app.js:72-88 | a valid date of a four-digit year written `dd-mm-yyyy` reads back as that same date |
| Parsers.ToDateRollOver | JS/app.js:79-81 | `31-02-2026` rolls over to 3 March 2026 |
| Parsers.ToDateEarlyYear | JS/app.js:79-81 | `05-06-0026 (middag)` is read as 5 June 1926; the note after the space is ignored |
| Parsers.DmyAlwaysValid | JS/app.js:79-81 | every matched `dd-mm-yyyy` gives a date inside JavaScript's valid range, so the fallback below it is never reached for such text |
| Classify.GuessChannel | JS/app.js:120-128 | computes, as written: on the lower-cased text, "Onbekend" when it is empty, otherwise the first keyword found in the order huiseigenaar, villa for you or villaforyou, booking, airbnb, and "Overig" when none is |
| Classify.IsOwnerBooking | JS/app.js:130-136 | computes, as written: true for a text revenue cell that trims to `-`, and otherwise exactly when the booking text contains "huiseigenaar" in any case |
| Classify.Label | JS/app.js:122-127 | every channel's label is non-empty |
| Classify.GuessChannelIgnoresCase | JS/app.js:121 | the channel of a booking text does not depend on its case |
| Classify.GuessChannelUnknown | JS/app.js:121-122 | the channel is "Onbekend" exactly when the cell's text is empty |
| Classify.GuessChannelOfLabel | JS/app.js:120-128 | each label other than "Onbekend" is recognised as its own channel |
| Classify.LabelOwner | JS/app.js:123 | "Huiseigenaar" is the owner channel |
| Classify.LabelVillaForYou | JS/app.js:124 | "Villa for You" is the Villa for You channel |
| Classify.LabelBookingCom | JS/app.js:125 | "Booking.com" is the Booking.com channel |
| Classify.LabelAirbnb | JS/app.js:126 | "Airbnb" is the Airbnb channel |
| Classify.LabelOther | JS/app.js:127 | "Overig" matches no keyword and falls through to "Overig" |
| Classify.LabelInjective | JS/app.js:122-127 | different channels have different labels |
| Classify.OwnerChannelOnlyForOwner | JS/app.js:120-136 | a booking text that `guessChannel` reads as the owner's makes `isOwnerBooking` true |
| Classify.DashMarksOwner | JS/app.js:133-134 | a revenue cell of `-`, with any blanks around it, marks an owner booking whatever the booking text says |
| Classify.EmptyRevenueIsNotOwner | JS/app.js:131-135 | an empty revenue cell is not the owner marker, although the comment at JS/app.js:131 says so |
| Bookings.NormalizeRow | JS/app.js:140-172 | computes, as written: no record when the arrival does not parse; otherwise the three parsed dates, the nights, the sum of the four guest counts (a missing number counts 0), the owner flag, gross 0 for an owner booking and otherwise the revenue number, net 0.76 × gross, and the owner channel for an owner booking and otherwise the guessed channel |
| Bookings.NormalizeRows | JS/app.js:139-173 | never more records than rows, and every record is well formed: net is 76% of gross, an owner booking earns nothing, and the channel is the owner's exactly for owner bookings |
| Bookings.NormalizeOk | JS/app.js:153-171 | a normalised row keeps its raw cells and is well formed |
| Bookings.NormalizeRowKeeps | JS/app.js:141-172 | a row is kept exactly when its arrival parses, and then it arrives on that day |
| Bookings.NormalizeRowsAppend | JS/app.js:140-172 | normalising a concatenation is the concatenation of the normalised parts, in input order |
| Bookings.NormalizeRowsSingle | JS/app.js:140-172 | one row gives no record or exactly its own |
| Bookings.NormalizeRowsCount | JS/app.js:172 | the number of records is the number of rows whose arrival parses |
| Bookings.NormalizeRowsFrom | JS/app.js:140-172 | every record comes from an input row and is that row's normalisation |
| Bookings.ValueByModeOfWellFormed | JS/app.js:155-177 | for a well-formed record the net value is 76% of the gross value, and an owner booking is worth 0 in either mode |
| Bookings.ValueByMode | JS/app.js:175-177 | computes, as written: the net value in net mode and the gross value otherwise |
| Bookings.SortByArrival | JS/app.js:213 | computes, as written: the records stably sorted by arrival day |
| Bookings.SortByArrivalSorted | JS/app.js:213 | sorting by arrival is a permutation, ordered by arrival |
| Kpis.PerNight | JS/app.js:192-193 | no figure unless nights were sold; otherwise the figure times the nights is the revenue |
| Kpis.ComputeKpis | JS/app.js:179-205 | platform and owner bookings together are all records; the per-night figures are absent exactly when no platform night was sold |
| Kpis.KpiNightsPartition | JS/app.js:186-187 | platform nights plus owner nights are all nights booked |
| Kpis.KpiRevenueOverAllRows | JS/app.js:189-190 | for normalised records, summing revenue over all rows, owner rows included, gives the same totals |
| Kpis.KpiNetIsFactorOfGross | JS/app.js:189-190 | for normalised records, net revenue is 76% of gross revenue |
| Kpis.KpiRevenueIsValueByMode | JS/app.js:175-190 | for normalised records, the sum of `valueByMode` is the revenue tile of the chosen mode |
| Calendar.MonthsTile | JS/app.js:79 | the months of a year follow each other without gaps and fill the year |
| Calendar.YearStartMonotone | JS/app.js:220 | later years start at least 365 days per year later |
| Calendar.YearOf | JS/app.js:220 | `getFullYear()`: the year whose days contain the day |
| Calendar.YearOfUnique | JS/app.js:220 | no other year contains that day |
| Calendar.YearOfMonotone | JS/app.js:220 | a later day is never in an earlier year |
| Calendar.CivilIsDate | JS/app.js:220-221 | the calendar date of a day is a valid date with that day number, in the year `getFullYear` gives |
| Calendar.MonthUnique | JS/app.js:221 | a day of the year lies in one month only |
| Calendar.CivilOfDayNumber | JS/app.js:79 | the calendar date of a valid date's day number is that date |
| Calendar.CivilMonotone | JS/app.js:213-226 | day numbers are ordered like their dates: by year, then by month |
| Calendar.LocalDateOfEarlyYear | JS/app.js:79 | in the years 0..99, `new Date(y, m - 1, d)` of a valid date is that date in the year 1900 + y |
| Calendar.LocalDateOfValid | JS/app.js:79 | outside the years 0..99, `new Date(y, m - 1, d)` of a valid date is that date |
| Calendar.IsoWeekDay | JS/app.js:413 | `(getDay() + 6) % 7` runs 0 (Monday) to 6 (Sunday) |
| Calendar.MondayOf | JS/app.js:413-414 | a Monday, at most six days before the day |
| Calendar.MondayOfWithinWeek | JS/app.js:413-414 | all seven days from a Monday have that Monday |
| IsoWeek.WeekOf | JS/app.js:410-423 | computes, corrected: the year of the day's Thursday, and 1 plus the whole weeks from the Monday of the week holding 4 January of that same year |
| IsoWeek.WeekOfAsWritten | JS/app.js:410-423 | computes, as written: the same with 4 January found by `new Date(year, 0, 4)`, which puts it in 1900..1999 for the years 0..99 |
| IsoWeek.IsoWeekKey | JS/app.js:410-425 | computes, corrected: the label `yyyy-Www` of WeekOf |
| IsoWeek.Week1MondayNearNewYear | JS/app.js:417-420 | the Monday of week 01 is a Monday within three days of 1 January |
| IsoWeek.WeekOfRange | JS/app.js:410-425 | every week number lies in 1..53; its year is the year of the day's Thursday; its Monday lies 7 × (week − 1) days after the Monday of week 01 |
| IsoWeek.SameWeekIffSameMonday | JS/app.js:413-423 | two days get the same week exactly when they share their Monday |
| IsoWeek.WeekOfWholeWeek | JS/app.js:413-423 | all seven days from a Monday get that Monday's week |
| IsoWeek.WeekOfWeekOne | JS/app.js:417-423 | the seven days from the Monday of week 01 are week 01 of that year |
| IsoWeek.Jan4InWeekOne | JS/app.js:417-420 | 4 January always lies in week 01 of its own year |
| IsoWeek.ReferenceWeek2026 | JS/app.js:410-425 | 1 January 2026 is labelled `2026-W01` |
| IsoWeek.ReferenceWeek2025 | JS/app.js:410-425 | 30 December 2024 lies in week 01 of 2025 |
| IsoWeek.ReferenceWeek2020 | JS/app.js:410-425 | 31 December 2020 lies in week 53 of 2020 |
| IsoWeek.AsWrittenAgrees | JS/app.js:418 | outside the years 0..99 the lines as written give the ISO week |
| IsoWeek.AsWrittenYear50 | JS/app.js:418 | as written, a day in June of the year 50 gets a week number below 1 |
| IsoWeek.KeyAsWrittenAgrees | JS/app.js:410-425 | outside the years 0..99 the key as written is the ISO week's key |
| IsoWeek.KeyAsWrittenDiffers | JS/app.js:424 | a week number below 1, written as the lines write it, is never the key of a week 1..99 of that year |
| IsoWeek.KeyAsWrittenYear50 | JS/app.js:418 | as written, 15 June of the year 50 does not get its ISO week's key |
| IsoWeek.WeekKeyInjective | JS/app.js:424 | the label `yyyy-Www` determines the week |
| IsoWeek.SameKeyIffSameMonday | JS/app.js:410-425 | two days share a week key exactly when they share a Monday-to-Sunday week |
| Tally.FirstOccurrences | JS/app.js:219-227 | the keys come out in order of first occurrence, each once, with the map giving each key's position |
| Tally.Segments | JS/app.js:238-253 | one row per element, as long as the key list, holding the element's value at its key's position and 0 elsewhere |
| Tally.TallyOfMeaning | JS/app.js:293-298 | the tally holds exactly the keys that occur, each with its number of elements and the sum over them |
| Tally.TallyByKey | JS/app.js:283-299 | the keys in insertion order; for each, its count and total are those of the elements with that key |
| Monthly.MonthOf | JS/app.js:220-221 | the month of a day is a real calendar month |
| Monthly.AggRevenueByMonth | JS/app.js:209-278 | one column per month in which a booking arrives, in arrival order; one dataset per booking, holding its value in its own month's column only; the labels and 0-based months of the columns; each month total is the revenue of the bookings arriving that month |
| Monthly.RevenueDatasets | JS/app.js:213-269 | the month columns in order of first occurrence, and each booking's dataset as above |
| Monthly.MonthColumnTotal | JS/app.js:272-274 | summing a column over the datasets gives that month's revenue |
| Monthly.AggBookingsNightsByMonth | JS/app.js:280-316 | the months of the arrivals, sorted; for each, its label, its 0-based month, its number of bookings and its nights |
| Monthly.MonthKeyInjective | JS/app.js:222 | the `yyyy-mm` key determines the month |
| Monthly.CompactMonthKeyInjective | JS/app.js:291 | the `yyyy-m` key determines the month |
| Monthly.MonthKeyReadBack | JS/app.js:229-235 | for a year of 0 or more, `split("-")` of the revenue chart's key gives the year's text and the padded month, whose value is the month; the label built from them is the month's label |
| Monthly.CompactMonthKeyReadBack | JS/app.js:301-314 | for a year of 0 or more, `split("-").map(Number)` of the bookings chart's key gives the year and the 0-based month, so the sort compares months in time order and the label built from them is the month's label |
| Monthly.NegativeYearMonthKey | JS/app.js:230 | the revenue chart's key of March of the year -5 splits into `""`, `"5"` and `"03"` |
| Monthly.NegativeYearCompactKey | JS/app.js:302-303 | the bookings chart's key of March of the year -5 splits into `""`, `"5"` and `"2"` |
| Monthly.SplitNegativeKey | JS/app.js:230 | the key of a year below 0 splits into an empty piece, the year's digits without the sign, and the month |
| Monthly.LabelOfInjective | JS/app.js:229-233 | different months get different axis labels (the labels of the true year and month; for years 0 and up these are the source's, see MonthKeyReadBack) |
| Monthly.MonthLeTotal | JS/app.js:301-305 | the comparator is a total preorder |
| Monthly.RevenueMonthsAscending | JS/app.js:213-227 | the revenue chart's months run strictly forward in time |
| Monthly.RevenueMonthsCover | JS/app.js:219-227 | the revenue chart has a column for exactly the months in which some booking arrives |
| Monthly.BookingMonthsAscending | JS/app.js:285-305 | the bookings chart's months run strictly forward and are exactly the arrival months (the source's comparator reads the keys back as this order for years 0 and up, see CompactMonthKeyReadBack) |
| Monthly.MonthChartsAgree | JS/app.js:209-316 | both month charts show the same months in the same order (for years below 0 the source's two charts differ, see Left out) |
| Monthly.MonthTotalsAddUp | JS/app.js:272-274 | the monthly revenue totals add up to the revenue of all bookings |
| Monthly.MonthCountsAddUp | JS/app.js:297-298 | the monthly counts add up to the number of bookings, and the monthly nights to the KPI nights plus owner nights |
| Monthly.MonthTotalsMatchKpis | JS/app.js:272-274 | for normalised records, the monthly revenue totals add up to the KPI revenue of the chosen mode |
| LeadTime.DaysBetween | JS/app.js:318-322 | computes, as written: the first day minus the second, in whole days |
| LeadTime.LeadOf | JS/app.js:340-343 | computes, as written: no lead without a booking date or when the booking date is after the arrival; otherwise arrival minus booking date |
| LeadTime.FindBucket | JS/app.js:347 | the first bucket holding the lead, or −1 when no bucket does |
| LeadTime.AggLeadTime | JS/app.js:324-357 | the seven bucket labels; the lead times in record order; each count is the number of lead times in its bucket; the total is the number of lead times |
| LeadTime.Record | JS/app.js:345-348 | appending a lead of 0 or more keeps the counts those of the values |
| LeadTime.CountsStep | JS/app.js:347-348 | one lead of 0 or more adds one to its own bucket and to no other |
| LeadTime.BucketsCover | JS/app.js:326-347 | a lead lies in a bucket exactly when it is 0 or more, and then in exactly the one `findIndex` returns |
| LeadTime.BucketsOrdered | JS/app.js:326-334 | a bucket ends before any later bucket starts |
| LeadTime.BucketsContiguous | JS/app.js:326-334 | the buckets start at 0, each starts the day after the previous ends, and the last is open-ended |
| LeadTime.LeadTimesBound | JS/app.js:339-345 | every lead is 0 or more, with at most one per booking that has a booking date |
| LeadTime.LeadOfSkips | JS/app.js:340-343 | a booking adds its lead (arrival minus booking date) exactly when it has a booking date on or before arrival |
| LeadTime.EveryLeadHasBucket | JS/app.js:347-348 | every recorded lead finds a bucket, so `idx >= 0` always holds |
| Channels.ChannelChart | JS/app.js:359-368 | computes, as written: the channels in order of first occurrence, each with the sum of its records' values, stably sorted by descending sum |
| Channels.PieSlices | JS/app.js:387-390 | computes, as written: "Eigen boeking" first when some counted record is an owner booking, then the party-size keys in ascending numeric order |
| Channels.AggRevenueByChannel | JS/app.js:359-368 | the labels and values are those of the channel chart, element by element |
| Channels.EntriesMatch | JS/app.js:360-366 | the entries read from the filled map are the channels seen, each with its revenue |
| Channels.UnsortedChannels | JS/app.js:366 | before sorting there is one entry per channel |
| Channels.ChannelChartDescending | JS/app.js:366 | the chart is ordered by descending revenue |
| Channels.ChannelChartDistinct | JS/app.js:361-367 | no label appears twice |
| Channels.ChannelChartEntries | JS/app.js:359-368 | a channel is on the chart exactly when some record has it, and then with the revenue of its records |
| Channels.ChartEntry | JS/app.js:361-366 | each entry is a channel some record has, with the revenue of those records |
| Channels.ChannelOnChart | JS/app.js:361-366 | a channel some record has is on the chart |
| Channels.ChannelChartSum | JS/app.js:361-367 | the chart's values add up to the revenue of all records |
| Channels.ChannelChartAddsUp | JS/app.js:361-367 | for normalised records, the chart's values add up to the KPI revenue of the chosen mode |
| Channels.RoundHalfUp | JS/app.js:379 | `Math.round`: the integer within half a unit, halves rounded up |
| Channels.AggGuestPie | JS/app.js:370-395 | the labels and values are the slices in display order, each with its number of counted records |
| Channels.PieOrder | JS/app.js:387-390 | the labels: "Eigen boeking" when the map has it, then the numeric keys in numeric order; each is a key of the map |
| Channels.PieSlicesAscending | JS/app.js:387-390 | "Eigen boeking" can only come first; party sizes follow in strictly ascending order |
| Channels.PieSizesInRange | JS/app.js:379-382 | party sizes run from 1 to 10 |
| Channels.PieOwnerFirst | JS/app.js:374-389 | the pie opens with "Eigen boeking" exactly when some record is an owner booking |
| Channels.SeenSlice | JS/app.js:373-384 | every key of the map is the slice of some counted record |
| Channels.SliceLabelInjective | JS/app.js:375-382 | no two slices carry the same label |
| Channels.PieSlicesCover | JS/app.js:387-392 | the slices are exactly the map's keys, each once |
| Channels.PieSlicesAddUp | JS/app.js:373-392 | the slice values add up to the owner bookings plus the other bookings with at least one guest |
| Occupancy.NightsOf | JS/app.js:429-444 | computes, as written: the union, over the records with a departure, of the days from arrival up to and not including departure |
| Occupancy.WalkCounts | JS/app.js:462-471 | computes, as written: for each key met on the walk over the days lo..hi−1, the number of those days that are occupied |
| Occupancy.NightsOfMeaning | JS/app.js:429-444 | a night is occupied exactly when it lies in some booking's arrival-to-departure range, departure excluded |
| Occupancy.BuildOccupiedNightSet | JS/app.js:429-444 | the loop builds exactly that set of occupied nights |
| Occupancy.MinArrival | JS/app.js:455 | the earliest arrival of the stays |
| Occupancy.MaxDeparture | JS/app.js:456 | the latest departure of the stays |
| Occupancy.Min7 | JS/app.js:472 | `Math.min(7, n)` is at most 7 and at most n, and is n when n ≤ 7 |
| Occupancy.AggFreeNightsByWeek | JS/app.js:446-476 | no weeks without stays; otherwise one entry per ISO week (4 January looked up in its own year) the walk from the earliest arrival to the latest departure passes, labels strictly ascending, booked the week's occupied nights capped at 7, free 7 minus booked |
| Occupancy.AggFreeNightsByWeekAsWritten | JS/app.js:446-476 | the chart as written: the same walk and shape, keyed by `isoWeekKey` as its lines stand |
| Occupancy.WalkCountsSameKeys | JS/app.js:462-471 | two key functions that agree on the walked days build the same counts |
| Occupancy.WeekCountsAsWrittenAgree | JS/app.js:462-471 | when no walked day has its Thursday in the years 0..99, the chart as written counts the same weeks and nights as the corrected one |
| Occupancy.FreeNightsBy | JS/app.js:446-476 | the same with any key function in place of `isoWeekKey` |
| Occupancy.WalkDays | JS/app.js:459-469 | the walk's map counts, per key, the occupied days it passes |
| Occupancy.SortedKeys | JS/app.js:471 | sorting distinct keys makes them strictly ascending and loses none |
| Occupancy.WeekCountsMeaning | JS/app.js:459-469 | a week is in the map exactly when the walk passes one of its days, and its count is the walk's occupied nights in that week |
| Occupancy.WeekCountAtMostSeven | JS/app.js:458-472 | no week collects more than 7 occupied nights, so the `Math.min(7, ..)` cap never changes a value |
| Occupancy.AtMostSevenPerWeek | JS/app.js:458 | a key only the days of one Monday-to-Sunday week carry is counted at most 7 times |
| Gaps.ComputeGaps | JS/app.js:479-514 | the gaps are the free stretches between the booked nights: in order, each a positive number of free nights, each bounded on both sides by booked nights, and every free night between two booked nights in some gap |
| Gaps.Merged | JS/app.js:488-497 | computes, as written: from the first interval on, each next interval that starts on or before the last merged end extends it to the later of the two ends, and otherwise is appended |
| Gaps.GapsOf | JS/app.js:500-512 | computes, as written: for each two neighbouring merged intervals a positive distance apart, the gap from the first's end to the second's start with its number of nights |
| Gaps.GapList | JS/app.js:479-514 | computes, corrected: the gaps of the merged, start-sorted intervals of the records that depart after they arrive |
| Gaps.GapListAsWritten | JS/app.js:479-514 | computes, as written: the same over every record with a departure date |
| Gaps.MergeLoop | JS/app.js:488-497 | the merge loop's result is the merge of the sorted intervals |
| Gaps.GapsLoop | JS/app.js:500-512 | the gap loop's result is the gaps of the merged intervals |
| Gaps.MergedShape | JS/app.js:488-497 | merging sorted stays of at least one night gives stays of at least one night, each ending before the next starts, covering the same nights |
| Gaps.AbsorbShape | JS/app.js:490-496 | one merge step keeps that shape and adds the new interval's nights |
| Gaps.IntervalsShape | JS/app.js:480-483 | the intervals come sorted by start and hold at least one night each |
| Gaps.IntervalsCover | JS/app.js:480-483 | the intervals cover exactly the occupied nights |
| Gaps.GapsOfShape | JS/app.js:500-512 | between separated intervals no gap is dropped: gap i runs from the end of interval i to the start of the next |
| Gaps.MergedGapsOrdered | JS/app.js:500-512 | the gaps are in order, each with a positive number of nights equal to its length |
| Gaps.MergedGapsFree | JS/app.js:500-512 | no night of a gap is covered |
| Gaps.MergedGapsBounded | JS/app.js:500-512 | the night before a gap, and the night it ends on, are covered |
| Gaps.MergedGapsComplete | JS/app.js:500-512 | every free night between two covered nights lies in a gap |
| Gaps.GapListMeaning | JS/app.js:479-514 | the gaps of the stays are exactly the free stretches between the booked nights |
| Gaps.AsWrittenGapOverBooking | JS/app.js:481 | as written, the stays [1, 4) and [6, 9) and a record from day 5 to day 2 give the gaps [4, 5) and [2, 6), the second over the booked night 3; the corrected list is the single gap [4, 6) |
| Gaps.AsWrittenAgreesOnStays | JS/app.js:481 | when no record departs on or before its arrival day, the filter as written and the corrected one give the same gaps |
| Gaps.Advice | JS/app.js:643-648 | the suggestion is one of the four fixed texts |
| Gaps.AdviceMonotone | JS/app.js:643-648 | a longer gap never gets a weaker suggestion, and a gap gets none exactly when it is shorter than 2 nights |
| Timeline.SpansOf | JS/app.js:536-543 | one span per stay, with its dates, owner flag and its position among the stays |
| Timeline.LastEnd | JS/app.js:555 | absent exactly for no records; otherwise the last record's departure, or its arrival when it has none |
| Timeline.AggCumulativeRevenue | JS/app.js:517-559 | one point per record in arrival order, each carrying its record's value and the running total up to and including it; x ascending; each y the previous plus its value; the total is the sum over all records, which for normalised records is the KPI revenue; spans for the records with a departure; the two season markers; the earliest arrival; the end of the last record |
| Timeline.RunningTotals | JS/app.js:522-534 | point i carries the sum of the values of records 0..i, and each y is the previous y plus the point's value |
| Timeline.EarliestFirst | JS/app.js:554 | the first record in arrival order has the earliest arrival |
| Text.TrimStart | JS/app.js:64 | drops exactly the leading whitespace |
| Text.TrimEnd | JS/app.js:64 | drops exactly the trailing whitespace |
| Text.ReplaceFirst | JS/app.js:66 | `replace(",", ".")` replaces only the first comma and keeps the length |
| Text.ReplaceFirstAt | JS/app.js:66 | what precedes and follows the first comma is kept |
| Text.BeforeChar | JS/app.js:75 | `split(" ")[0]`: all text before the first space |
| Text.SplitCons | JS/app.js:230 | `split` at a separator cuts off the text before its first occurrence and splits the rest |
| Text.SplitTwo | JS/app.js:230 | a text with one separator splits into the two sides |
| Text.NatToString | JS/app.js:222 | `String(n)`: digits, one digit exactly below 10, no leading zero |
| Text.NatToStringRoundTrip | JS/app.js:222 | `String(n)` reads back as n |
| Text.Pad2 | JS/app.js:222 | `padStart(2, "0")` gives at least two digits, exactly two below 100 |
| Text.Pad2Value | JS/app.js:222 | padding keeps the value |
| Text.LexLeTotal | JS/app.js:471 | the default `sort()` order compares any two strings |
| Text.LexLeAntisymmetric | JS/app.js:471 | strings ordered both ways are equal |
| Seqs.SortBySorted | JS/app.js:213 | with a total, transitive comparator, `sort` gives a sorted permutation |
| Seqs.SortByIdentity | JS/app.js:483 | sorting a sequence that is already in order leaves it unchanged |
| Seqs.SumByGroups | JS/app.js:364 | group sums over distinct keys covering every element add up to the whole sum |

## Left out

- Rendering, the DOM, Chart.js options, colours, tooltips and the XLSX file reading are not modelled. Only the chart data is.
- `fmtEUR`, `fmtPct`, `fmtDateNL` and the tooltip dates (`toLocaleDateString`) are not modelled: they are locale formatting.
- Time of day, time zones and daylight saving are not modelled. Every `Date` is a whole local day, so `startOfDay` is the identity and `Math.round` of a millisecond difference is a difference of day numbers. `Math.round` stays exact under daylight saving, since two local midnights lie within an hour of a whole number of days apart. `daysBetween` uses `Math.floor` instead, which is the day difference only where no daylight-saving change lies between the two dates (see the next line).
- LeadTime.DaysBetween, LeadTime.AggLeadTime: the lead is the difference of the day numbers. In a time zone with daylight saving, two local midnights that straddle the spring change are 23 hours short of whole days, so `Math.floor(ms / 86400000)` (JS/app.js:321) gives one day less. A booking made on 22 March 2026 for 30 March 2026 in the Netherlands has lead 7 in the source, in the bucket "0–7", and lead 8 in the model, in "8–14". The same holds for every lead that spans a spring change and no autumn change. Not modelled, because the change dates belong to the host's time-zone database.
- The season lines `new Date("2026-06-01")` and `new Date("2026-11-15")` parse as UTC midnight. They are modelled as those calendar days.
- IEEE floating point, `NaN` and infinities are not modelled. Numbers are exact reals, so `Number.isFinite` and `v || 0` on a number are no-ops.
- Parsers.ToNumber: the `Number(s)` grammar is modelled for decimals with an optional sign, exponent and `0x`/`0o`/`0b` prefixes. `Infinity` text and numeric separators are left out, because they yield non-finite values or are not accepted by `Number`.
- Parsers.ToDate: the fallback `new Date(v)` is a parameter (`host`), because its grammar belongs to the JavaScript host and is implementation-defined. A `Date` cell is assumed valid.
- Parsers.SafeStr: `String(v)` of a number or a date is a stand-in text without letters. Only the keyword tests downstream read it.
- Text.Lower: ASCII case mapping only. Unicode case mapping is left out.
- Text.LexLe compares characters, not UTF-16 code units. The two differ only outside the Basic Multilingual Plane, and week keys are ASCII.
- `Map`s keyed by strings are modelled by `map`s keyed by the values the strings encode (`MonthId`, `Channel`, `Slice`). The injectivity lemmas justify this.
- Monthly.LabelOf: the label is built from the true year and month. The source rebuilds it from the key with `k.split("-")`. That agrees for years 0 and up (MonthKeyReadBack). For a year below 0 the minus sign is taken for a separator: `"-5-03"` splits into `""`, `"5"` and `"03"` (NegativeYearMonthKey), so the source labels March of the year -5 `["Mei", ""]`. Not modelled, because most such keys index past the twelve month names, giving `undefined`, which the model has no value for.
- Monthly.AggRevenueByMonth: labels and `metaMonths` are those of the true month. For a year below 0 the source gives those of the misread key: for March of the year -5, `["Mei", ""]` and 4 where the model has `["Mrt", "-5"]` and 2.
- Monthly.AggBookingsNightsByMonth: months are sorted and labelled by the true year and month. For a year below 0 the source reads `"-5-2"` back as `[0, 5]` (NegativeYearCompactKey). It sorts that month as month 5 of the year 0, labels it `["Jun", "0"]` and gives `metaMonths` 5.
- Monthly.LabelOfInjective: proved for the model's labels. The source's labels collide for years below 0: `"-5-03"` and `"-5-04"` both give `["Mei", ""]`.
- Monthly.BookingMonthsAscending: the source's comparator puts months in time order for years 0 and up (CompactMonthKeyReadBack). For years below 0 it sorts by the misread pairs.
- Monthly.MonthChartsAgree: the source's two charts agree for years 0 and up only. For a year below 0 their labels and order differ as described above.
- IsoWeek.IsoWeekKey, Occupancy.AggFreeNightsByWeek: both use the corrected 4 January lookup (WeekOf). For a day whose Thursday falls in the years 0..99, the source's key is IsoWeekKeyAsWritten, built from WeekOfAsWritten, and it differs (KeyAsWrittenYear50). Occupancy.AggFreeNightsByWeekAsWritten is the chart as written. WeekCountsAsWrittenAgree shows the two agree outside those years (Findings, JS/app.js:418).
- `sort` is a stable insertion sort. Results are proved to be sorted permutations. The order among equal keys is not proved to match the host's (the host's `sort` is stable too).
- Channels.AggGuestPie: the loop with its two `continue`s is modelled as a filter followed by the tally.
- The object mutation in `computeGaps` (`last.end = cur.end`) is modelled on values: the last merged interval is replaced. Nothing else holds a reference to it.
- Gaps.ComputeGaps: the corrected filter keeps only records with arrival before departure. That removes records that depart before they arrive (see Findings). It also removes zero-night records, which as written split a free stretch in two at their day.
- Gaps.AdviceMonotone and Gaps.Strength order the four suggestions by their position in a list. They are a reading aid; the code compares nothing.
- The `render` functions that call the aggregations, the `mode` toggle buttons and the `log` panel are not modelled: they are UI.

## Findings

| source | as written | input that shows it | evidently intended | confidence | as-written member | corrected member |
|---|---|---|---|---|---|---|
| JS/app.js:418 | `new Date(year, 0, 4)` reads years 0..99 as 1900..1999, so week 01 of such a year is found 1900 years later | any day of the year 50, such as 15 June 50 | the Monday of week 01 of that same year, and a week number in 1..53 | not executed | IsoWeek.AsWrittenYear50 | IsoWeek.WeekOfRange |
| JS/app.js:481 | the filter keeps every record with both dates, including one that departs before it arrives; its interval then ends the merged stay early | the stays [1, 4) and [6, 9) and a record from day 5 to day 2: gaps [4, 5) and [2, 6), the second over the booked nights 2 and 3 | only real stays are merged; the single gap [4, 6) of 2 nights | not executed | Gaps.AsWrittenGapOverBooking | Gaps.ComputeGaps |

The comment at JS/app.js:131 says an owner booking is one whose revenue cell is `-` or empty. The code at JS/app.js:133-134 tests only for `-`: an empty cell is not the owner marker, and its revenue counts as 0 (`toNumber` gives null, and `?? 0` applies). The model follows the code (Classify.EmptyRevenueIsNotOwner). This is not a row above, because nothing shows whether the comment or the code is the intended rule.
