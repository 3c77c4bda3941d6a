# Billing-window calculator of the AWS billing notification job

The job runs once a day. It asks AWS Cost Explorer for the amortised cost
of the billing window, then posts a two-line markdown message to a Slack
webhook. Its only logic is the calendar arithmetic in `TimeStringHelper`
and the message text built from the results. This project models that
logic as pure Dafny functions and proves properties about them.

- `Calendar` (calendar.dfy) is the proleptic Gregorian calendar that Go's
  `time` package uses. `Normalize(y, m, d)` models how `time.Date` treats
  out-of-range fields. It is defined for every integer triple:
  - the month is reduced by floor division, so month 0 is December of the
    year before;
  - a day below 1 borrows whole months from the past, so day 0 is the last
    day of the previous month, leap Februaries included;
  - a day past the month's end carries into the next month.

  `NextDay` and `PrevDay` are independent reference definitions of the
  next and the previous calendar day.
- `DateLayout` (date_layout.dfy) renders a date with Go's layout
  `"2006-01-02"`. This is Go's `appendInt` with widths 4, 2 and 2: an
  optional minus sign, then the zero-padded decimal. `ParseDate` reads the
  result back.
- `BillingNotification` (billing_notification.dfy) holds the helpers:
  - each `time.Date(...)` call, as a function of `now` (`…Date`);
  - each `TimeStringHelper` method, as that date rendered (`Get…`);
  - the start/end choice made for the cost query;
  - `makeSlackMessage`.

  Its text is the two lines below, and `Mrkdwn` is true:

  ```
  *期間*: `<start> ~ <yesterday>`
  *料金*: `$<amount>`
  ```

  `ParseSlackText` reads the displayed range and the amount back out of
  that text.
- `Wrappers` (wrappers.dfy) holds the `Option` datatype.

Inputs from outside the job are parameters:
- `now` is a valid calendar date, already converted to the reporting time
  zone.
- `amount` is the string that the cost query returned.

The main results:
- **Start of the window.** On the 1st, `GetStartTimePeriod` chooses last
  month's first day; on any other day, this month's first day.
  `GetStartTimePeriod` and `BillingWindow` prove that both cases are the
  first day of the month that contains yesterday. The start is therefore
  never later than yesterday, and strictly before today.
- **Yesterday.** `YesterdayDate` is exactly the calendar day before today.
  This follows from `NormalizeShift`: adding one to the day field of
  `time.Date` moves the date one calendar day forward.
- **Rendering is lossless.** `ParseFormatDate` proves that parsing a
  rendered valid date gives the date back, for every year. So different
  valid dates render to different strings. Years 0..9999 render in the
  fixed ten-character `YYYY-MM-DD` shape.
- **Query end and displayed end.** The query is given today as its end.
  The message shows yesterday. The two are consecutive calendar days.

## Model

| member | source | states |
|---|---|---|
| Calendar.NormalizeMonth | billing-notification.go:55-57 | the month passed to `time.Date` (here `Month() - 1`, which can be 0) is brought into 1..12, and the year absorbs the carry; `12 * year + month` is unchanged |
| Calendar.Normalize | billing-notification.go:55-69 | `time.Date` on any year, month and day gives a valid calendar date |
| Calendar.NormalizeValid | billing-notification.go:67-69 | `time.Date` on an already valid date returns that date unchanged |
| Calendar.NormalizeFirst | billing-notification.go:59-61 | with day 1, `time.Date` gives the first day of the normalised month |
| Calendar.NormalizeShift | billing-notification.go:63-65 | increasing the day field by one moves the result of `time.Date` exactly one calendar day forward, for every day value; with NormalizeFirst, this fixes the result of `time.Date` for every day |
| Calendar.NormalizeUnshift | billing-notification.go:63-65 | decreasing the day field by one (as `Day() - 1` does) moves the result exactly one calendar day back |
| Calendar.NextDayIsImmediate | billing-notification.go:86-115 | no valid date lies strictly between a date and the next day, so "the day after" means one calendar day |
| BillingNotification.BeginningOfLastMonthDate | billing-notification.go:55-57 | the result is valid with day 1; a January gives December of year − 1; any other month gives the same year and month − 1; it is the first day of the month that contains the day before this month's first |
| BillingNotification.BeginningOfMonthDate | billing-notification.go:59-61 | the same year and month as `now`, with day 1 |
| BillingNotification.YesterdayDate | billing-notification.go:63-65 | a valid date strictly before `now`, whose next day is `now`; when day > 1, the same month with day − 1; on the 1st of February to December, the last day of the previous month (by the Gregorian leap rule); on 1 January, 31 December of the year before |
| BillingNotification.TodayDate | billing-notification.go:67-69 | exactly `now`'s year, month and day |
| BillingNotification.GetBeginningOfLastMonth | billing-notification.go:55-57 | the rendered string parses back to the first day of the month before `now`'s month |
| BillingNotification.GetBeginningOfMonth | billing-notification.go:59-61 | the rendered string parses back to the first day of `now`'s month |
| BillingNotification.GetYesterday | billing-notification.go:63-65 | the rendered string parses back to the calendar day before `now` |
| BillingNotification.GetToday | billing-notification.go:67-69 | the rendered string parses back to `now` itself |
| BillingNotification.IsTodayFirst | billing-notification.go:71-73 | true exactly when today is the first of its month, and exactly when yesterday lies in another month |
| BillingNotification.GetStartTimePeriod | billing-notification.go:75-81 | the if/else over the two helpers always renders the first day of yesterday's month |
| BillingNotification.BillingWindow | billing-notification.go:75-81 | the start is last month's first on the 1st and this month's first otherwise; either way it has day 1, is at most yesterday and before today, and yesterday lies in its month |
| BillingNotification.GetCostInfo | billing-notification.go:85-86 | the query start parses to the first of yesterday's month, the query end parses to today, and the amount is passed through unchanged |
| BillingNotification.QueryEndIsDayAfterDisplayedEnd | billing-notification.go:86-115 | the query end (today) is the calendar day after the displayed range's end (yesterday) |
| BillingNotification.ParseSlackText | billing-notification.go:113-116 | any text it accepts yields two ten-character dates |
| BillingNotification.TextFieldsReadBack | billing-notification.go:113-116 | for ten-character dates, the fixed two-line layout gives back its start, end and amount, whatever the amount string holds |
| BillingNotification.MakeSlackMessage | billing-notification.go:111-118 | markdown is on; when both dates are ten characters, the start, yesterday and amount are recovered from the text |
| BillingNotification.NotificationShowsBillingWindow | billing-notification.go:84-118 | for years 1..9999, the message shows the window from the first of yesterday's month to yesterday, both in the `YYYY-MM-DD` shape, and the amount; the query end is the day after the displayed end |
| DateLayout.FormatInt | billing-notification.go:18 | a rendered number starts with `-` exactly when it is negative, and is otherwise made of digits only |
| DateLayout.FormatDate | billing-notification.go:18 | a valid date, rendered with `"2006-01-02"`, parses back to itself; its partners are ParseFormatDate (the same read-back as a lemma), FormatDateInjective (different valid dates render differently) and FormatDateShape (the ten-character shape for years 0..9999) |
| DateLayout.ParseFormatInt | billing-notification.go:18 | a number rendered Go's way (sign, then zero-padded decimal) reads back as that number |
| DateLayout.ParseFormatDate | billing-notification.go:18 | a valid date rendered with `"2006-01-02"` parses back to that date, for every year |
| DateLayout.FormatDateInjective | billing-notification.go:18 | two valid dates render to the same string exactly when they are equal |
| DateLayout.FormatDateShape | billing-notification.go:18 | for years 0..9999 the rendering is ten characters: 4-digit year, `-`, 2-digit zero-padded month, `-`, 2-digit zero-padded day; the three digit groups have the date's values |
| BillingNotification.LastMonthOfJanuaryExample | billing-notification.go:55-57 | on 2024-01-15 the beginning of last month is 2023-12-01 |
| BillingNotification.LeapFebruaryExample | billing-notification.go:63-65 | on 2024-03-01 yesterday is 2024-02-29 |
| BillingNotification.CommonFebruaryExample | billing-notification.go:63-65 | on 2023-03-01 yesterday is 2023-02-28 |
| BillingNotification.NewYearExample | billing-notification.go:63-65 | on 2024-01-01 yesterday is 2023-12-31 |
| BillingNotification.FirstOfJuneExample | billing-notification.go:75-81 | on 2024-06-01 the start is "2024-05-01" and yesterday is "2024-05-31" |
| BillingNotification.FirstOfJuneMessageExample | billing-notification.go:111-118 | on 2024-06-01 the message shows the range 2024-05-01 ~ 2024-05-31 and the amount |
| BillingNotification.MidJuneExample | billing-notification.go:75-81 | on 2024-06-15 the start is "2024-06-01" and yesterday is "2024-06-14" |

## Left out

- `NewCostExplorerClient` and the `GetCostAndUsage` call in `GetCostInfo` (billing-notification.go:21-29, 87-102) are not modelled: they are AWS SDK network calls, and a failed query panics. The amount that the query returns is a parameter of `GetCostInfo`.
- `PostToSlack` (billing-notification.go:120-124) is not modelled. It does the JSON encoding, the console print and the HTTP POST; its response and errors are ignored.
- `BillingNotification` and `main` (billing-notification.go:130-142) are not modelled. They are the Lambda entry point, the log line and the JSON response.
- `NewTimeStringHelper` (billing-notification.go:47-53) is not modelled: it reads the wall clock and the time-zone database. The model takes `now` as an already converted calendar date. Note that the code throws away the error from `time.LoadLocation`. It does not report an unknown zone as a configuration error, so the failure surfaces at the `In` call instead.
- The `Location` field, time of day and nanoseconds are dropped, and only the date is rendered. Every computed value is a local midnight wherever that midnight exists. In a zone whose daylight-saving change skips midnight, `time.Date` gives 23:00 of the day before instead (America/Sao_Paulo before 2019, for example), and the rendered date would then be one day earlier. The job fixes the zone to Asia/Tokyo (billing-notification.go:131), which has had no daylight-saving time since 1951, so the case does not arise there.
- Calendar.Normalize: does not model the range limit of Go's 64-bit `time.Time`. Years are unbounded integers here, and Go's behaviour for years beyond roughly ±292 billion is not captured.
- MakeSlackMessage: states the read-back of the message only when both dates are ten characters. This is the case for every year 1..9999 (see NotificationShowsBillingWindow). For longer dates the text is built the same way, but no read-back is claimed.
- Calling a helper twice with the same `now` gives the same result. Every member is a pure function, so this needs no lemma.
- The query's end date is today (line 86), while the message displays yesterday (line 115). Both are modelled as written, and QueryEndIsDayAfterDisplayedEnd proves that they are consecutive calendar days.
