/** The billing-window helpers of the notification job and the chat message
    built from their results. `now` is the current calendar date in the
    reporting time zone; every helper first builds a date with Go's
    `time.Date` (modelled by Calendar.Normalize) and then renders it with
    the layout "2006-01-02" (DateLayout.FormatDate). */
module BillingNotification {
  import opened Wrappers
  import opened Calendar
  import opened DateLayout

  /** The period and amount of one cost query. */
  datatype CostInfo = CostInfo(start: string, end: string, amount: string)

  /** The chat message: its text and whether it is rendered as markdown. */
  datatype SlackMessage = SlackMessage(text: string, mrkdwn: bool)

  /** What a reader sees in the message: the displayed range and the amount. */
  datatype DisplayedCost = DisplayedCost(start: string, end: string, amount: string)

  // ---------------------------------------------------------------------------
  // Dates built with time.Date

  /** `time.Date(Year, Month - 1, 1)`: the first day of the previous month;
      a January rolls back to December of the year before. */
  function BeginningOfLastMonthDate(now: Date): (r: Date)
    requires Valid(now)
    ensures Valid(r) && r.day == 1
    ensures now.month == 1 ==> r.year == now.year - 1 && r.month == 12
    ensures now.month > 1 ==> r.year == now.year && r.month == now.month - 1
    ensures r == FirstOfMonth(PrevDay(FirstOfMonth(now)))
  {
    Normalize(now.year, now.month - 1, 1)
  }

  /** `time.Date(Year, Month, 1)`: the first day of the current month. */
  function BeginningOfMonthDate(now: Date): (r: Date)
    requires Valid(now)
    ensures r == FirstOfMonth(now)
  {
    NormalizeMonthInRange(now.year, now.month);
    Normalize(now.year, now.month, 1)
  }

  /** `time.Date(Year, Month, Day - 1)`: the calendar day before `now`. On
      the first of a month the day field is 0, which Go normalises to the
      last day of the previous month. */
  function YesterdayDate(now: Date): (r: Date)
    requires Valid(now)
    ensures Valid(r) && Before(r, now) && NextDay(r) == now
    ensures now.day > 1 ==> r == Date(now.year, now.month, now.day - 1)
    ensures now.day == 1 && now.month > 1 ==>
      r == Date(now.year, now.month - 1, DaysInMonth(now.year, now.month - 1))
    ensures now.day == 1 && now.month == 1 ==> r == Date(now.year - 1, 12, 31)
  {
    NormalizeUnshift(now.year, now.month, now.day);
    NormalizeValid(now);
    NextPrevInverse(now);
    Normalize(now.year, now.month, now.day - 1)
  }

  /** `time.Date(Year, Month, Day)`: today's date itself. */
  function TodayDate(now: Date): (r: Date)
    requires Valid(now)
    ensures r == now
  {
    NormalizeValid(now);
    Normalize(now.year, now.month, now.day)
  }

  // ---------------------------------------------------------------------------
  // The TimeStringHelper methods

  /** The first of last month, rendered; it reads back as that date. */
  function GetBeginningOfLastMonth(now: Date): (r: string)
    requires Valid(now)
    ensures ParseDate(r) == Some(FirstOfMonth(PrevDay(FirstOfMonth(now))))
  {
    FormatDate(BeginningOfLastMonthDate(now))
  }

  /** The first of this month, rendered; it reads back as that date. */
  function GetBeginningOfMonth(now: Date): (r: string)
    requires Valid(now)
    ensures ParseDate(r) == Some(FirstOfMonth(now))
  {
    FormatDate(BeginningOfMonthDate(now))
  }

  /** The day before today, rendered; it reads back as that date. */
  function GetYesterday(now: Date): (r: string)
    requires Valid(now)
    ensures ParseDate(r) == Some(PrevDay(now))
  {
    NextPrevInverse(YesterdayDate(now));
    FormatDate(YesterdayDate(now))
  }

  /** Today, rendered; it reads back as today. */
  function GetToday(now: Date): (r: string)
    requires Valid(now)
    ensures ParseDate(r) == Some(now)
  {
    FormatDate(TodayDate(now))
  }

  /** Today is the first exactly when today is the beginning of the month,
      and exactly when yesterday lies in another month. */
  function IsTodayFirst(now: Date): (r: bool)
    requires Valid(now)
    ensures r <==> TodayDate(now) == BeginningOfMonthDate(now)
    ensures r <==> YesterdayDate(now).month != now.month
  {
    now.day == 1
  }

  /** The start of the billing window: last month's first day on the 1st,
      this month's first day otherwise. Both cases are the first day of the
      month that yesterday belongs to. */
  function GetStartTimePeriod(now: Date): (r: string)
    requires Valid(now)
    ensures r == FormatDate(FirstOfMonth(YesterdayDate(now)))
  {
    if IsTodayFirst(now) then GetBeginningOfLastMonth(now) else GetBeginningOfMonth(now)
  }

  /** The start and end handed to the cost query; the amount is what the
      query returned. */
  function GetCostInfo(now: Date, amount: string): (r: CostInfo)
    requires Valid(now)
    ensures ParseDate(r.start) == Some(FirstOfMonth(YesterdayDate(now)))
    ensures ParseDate(r.end) == Some(now)
    ensures r.amount == amount
  {
    CostInfo(GetStartTimePeriod(now), GetToday(now), amount)
  }

  /** The start rule of the billing window and what it guarantees: the start
      is a first of a month, no later than yesterday and strictly before
      today, and yesterday falls in the month that begins at the start. */
  lemma BillingWindow(now: Date)
    requires Valid(now)
    ensures var start, yesterday := FirstOfMonth(YesterdayDate(now)), YesterdayDate(now);
      && (IsTodayFirst(now) ==> start == BeginningOfLastMonthDate(now))
      && (!IsTodayFirst(now) ==> start == BeginningOfMonthDate(now))
      && start.day == 1
      && BeforeOrSame(start, yesterday) && Before(start, now)
      && start.year == yesterday.year && start.month == yesterday.month
  {
  }

  // ---------------------------------------------------------------------------
  // The chat message

  const PeriodLabel: string := "*期間*: `"
  const RangeSeparator: string := " ~ "
  const AmountLabel: string := "`\n*料金*: `$"
  const Closing: string := "`"

  /** Reads the displayed range and amount back out of a message text whose
      two dates are ten characters each. */
  function ParseSlackText(t: string): (r: Option<DisplayedCost>)
    ensures r.Some? ==> |r.value.start| == 10 && |r.value.end| == 10
  {
    var p := |PeriodLabel|;
    var a := p + 10 + |RangeSeparator| + 10;
    if |t| < a + |AmountLabel| + |Closing| then None
    else if t[..p] == PeriodLabel && t[p + 10..p + 13] == RangeSeparator
         && t[a..a + |AmountLabel|] == AmountLabel && t[|t| - 1..] == Closing
    then Some(DisplayedCost(t[p..p + 10], t[p + 13..a], t[a + |AmountLabel|..|t| - 1]))
    else None
  }

  /** The text layout of the message, on plain strings. */
  lemma {:induction false} TextFieldsReadBack(start: string, end: string, amount: string)
    ensures |start| == 10 && |end| == 10 ==>
      ParseSlackText(PeriodLabel + start + RangeSeparator + end + AmountLabel + amount + Closing)
      == Some(DisplayedCost(start, end, amount))
  {
    if |start| == 10 && |end| == 10 {
      TextFieldsAtFixedPositions(start, end, amount);
    }
  }

  lemma {:induction false} TextFieldsAtFixedPositions(start: string, end: string, amount: string)
    requires |start| == 10 && |end| == 10
    ensures ParseSlackText(PeriodLabel + start + RangeSeparator + end + AmountLabel + amount + Closing)
            == Some(DisplayedCost(start, end, amount))
  {
    var line1 := PeriodLabel + start + RangeSeparator + end;
    var t := line1 + AmountLabel + amount + Closing;
    assert |line1| == 30;
    assert t[..30] == line1;
    assert line1[..7] == PeriodLabel && line1[7..17] == start;
    assert line1[17..20] == RangeSeparator && line1[20..30] == end;
    var rest := AmountLabel + amount + Closing;
    assert t[30..] == rest;
    assert rest[..10] == AmountLabel;
    assert rest[10..|rest| - 1] == amount;
    assert t[..7] == PeriodLabel && t[7..17] == start;
    assert t[17..20] == RangeSeparator && t[20..30] == end;
    assert t[30..40] == AmountLabel && t[40..|t| - 1] == amount;
    assert t[|t| - 1..] == Closing;
  }

  /** `makeSlackMessage`: line one shows the query start and yesterday, line
      two the amount in dollars; markdown is on. Nothing is lost: when both
      dates have the ten-character layout, start, displayed end and amount
      can be read back, whatever the amount string holds. */
  function MakeSlackMessage(costInfo: CostInfo, now: Date): (m: SlackMessage)
    requires Valid(now)
    ensures m.mrkdwn
    ensures |costInfo.start| == 10 && |GetYesterday(now)| == 10 ==>
      ParseSlackText(m.text) == Some(DisplayedCost(costInfo.start, GetYesterday(now), costInfo.amount))
  {
    TextFieldsReadBack(costInfo.start, GetYesterday(now), costInfo.amount);
    SlackMessage(PeriodLabel + costInfo.start + RangeSeparator + GetYesterday(now)
                 + AmountLabel + costInfo.amount + Closing, true)
  }

  /** End to end, for a year 1..9999: the message shows the billing window
      from the first of yesterday's month to yesterday, both rendered in the
      ten-character layout, and the amount; the query's end date is today,
      exactly one calendar day after the displayed end. */
  lemma NotificationShowsBillingWindow(now: Date, amount: string)
    requires Valid(now) && 1 <= now.year <= 9999
    ensures var info := GetCostInfo(now, amount);
      var yesterday := YesterdayDate(now);
      var start := FirstOfMonth(yesterday);
      && MakeSlackMessage(info, now).mrkdwn
      && ParseSlackText(MakeSlackMessage(info, now).text)
         == Some(DisplayedCost(FormatDate(start), FormatDate(yesterday), amount))
      && IsLayoutShaped(FormatDate(start)) && IsLayoutShaped(FormatDate(yesterday))
      && BeforeOrSame(start, yesterday)
      && ParseDate(info.end) == Some(NextDay(yesterday))
  {
    var yesterday := YesterdayDate(now);
    FormatDateShape(yesterday);
    FormatDateShape(FirstOfMonth(yesterday));
  }

  /** The displayed end and the query end name consecutive calendar days. */
  lemma QueryEndIsDayAfterDisplayedEnd(now: Date, amount: string)
    requires Valid(now)
    ensures var info := GetCostInfo(now, amount);
      exists shown: Date, queried: Date ::
        && ParseDate(GetYesterday(now)) == Some(shown)
        && ParseDate(info.end) == Some(queried)
        && Valid(shown) && queried == NextDay(shown)
  {
    var shown := YesterdayDate(now);
    ParseFormatDate(shown);
    assert ParseDate(GetYesterday(now)) == Some(shown);
  }

  // ---------------------------------------------------------------------------
  // Worked cases. Each takes its date as a parameter so that the verifier
  // reasons from the contracts above instead of evaluating Normalize.

  /** January rolls back to December of the previous year. */
  lemma LastMonthOfJanuaryExample(now: Date)
    requires now == Date(2024, 1, 15)
    ensures BeginningOfLastMonthDate(now) == Date(2023, 12, 1)
  {
  }

  /** The day before 1 March is 29 February in a leap year. */
  lemma LeapFebruaryExample(now: Date)
    requires now == Date(2024, 3, 1)
    ensures YesterdayDate(now) == Date(2024, 2, 29)
  {
    assert IsLeapYear(2024);
  }

  /** The day before 1 March is 28 February in a common year. */
  lemma CommonFebruaryExample(now: Date)
    requires now == Date(2023, 3, 1)
    ensures YesterdayDate(now) == Date(2023, 2, 28)
  {
    assert !IsLeapYear(2023);
  }

  /** The day before New Year's Day is 31 December of the year before. */
  lemma NewYearExample(now: Date)
    requires now == Date(2024, 1, 1)
    ensures YesterdayDate(now) == Date(2023, 12, 31)
  {
  }

  /** The day before 1 June is 31 May. */
  lemma EndOfMayExample(now: Date)
    requires now == Date(2024, 6, 1)
    ensures YesterdayDate(now) == Date(2024, 5, 31)
  {
  }

  lemma FieldExamples()
    ensures FormatInt(2024, 4) == "2024"
    ensures FormatInt(5, 2) == "05" && FormatInt(6, 2) == "06"
    ensures FormatInt(1, 2) == "01" && FormatInt(14, 2) == "14" && FormatInt(31, 2) == "31"
  {
    assert Decimal(20) == "20" by { assert Decimal(2) == "2"; }
    assert Decimal(2024) == "2024" by { assert Decimal(202) == "202"; }
    assert Decimal(14) == "14" by { assert Decimal(1) == "1"; }
    assert Decimal(31) == "31" by { assert Decimal(3) == "3"; }
  }

  /** The rendering of the four dates of the June cases. */
  lemma RenderedMay1() ensures FormatDate(Date(2024, 5, 1)) == "2024-05-01" {
    FieldExamples();
    assert FormatDate(Date(2024, 5, 1)) == "2024" + "-" + "05" + "-" + "01";
  }

  lemma RenderedMay31() ensures FormatDate(Date(2024, 5, 31)) == "2024-05-31" {
    FieldExamples();
    assert FormatDate(Date(2024, 5, 31)) == "2024" + "-" + "05" + "-" + "31";
  }

  lemma RenderedJune1() ensures FormatDate(Date(2024, 6, 1)) == "2024-06-01" {
    FieldExamples();
    assert FormatDate(Date(2024, 6, 1)) == "2024" + "-" + "06" + "-" + "01";
  }

  lemma RenderedJune14() ensures FormatDate(Date(2024, 6, 14)) == "2024-06-14" {
    FieldExamples();
    assert FormatDate(Date(2024, 6, 14)) == "2024" + "-" + "06" + "-" + "14";
  }

  /** The start and displayed end of a window, rendered. */
  lemma RenderedWindow(now: Date, start: Date, yesterday: Date)
    requires Valid(now) && YesterdayDate(now) == yesterday && start == FirstOfMonth(yesterday)
    ensures GetStartTimePeriod(now) == FormatDate(start)
    ensures GetYesterday(now) == FormatDate(yesterday)
  {
  }

  /** On 2024-06-01 the window is the whole of May. */
  lemma FirstOfJuneExample(now: Date)
    requires now == Date(2024, 6, 1)
    ensures GetStartTimePeriod(now) == "2024-05-01"
    ensures GetYesterday(now) == "2024-05-31"
  {
    EndOfMayExample(now);
    RenderedWindow(now, Date(2024, 5, 1), Date(2024, 5, 31));
    RenderedMay1();
    RenderedMay31();
  }

  /** On 2024-06-01 the message's first line shows 2024-05-01 ~ 2024-05-31. */
  lemma FirstOfJuneMessageExample(now: Date, amount: string)
    requires now == Date(2024, 6, 1)
    ensures ParseSlackText(MakeSlackMessage(GetCostInfo(now, amount), now).text)
            == Some(DisplayedCost("2024-05-01", "2024-05-31", amount))
  {
    FirstOfJuneExample(now);
  }

  /** On 2024-06-15 the window runs from the first of June to the 14th. */
  lemma MidJuneExample(now: Date)
    requires now == Date(2024, 6, 15)
    ensures GetStartTimePeriod(now) == "2024-06-01"
    ensures GetYesterday(now) == "2024-06-14"
  {
    RenderedWindow(now, Date(2024, 6, 1), Date(2024, 6, 14));
    RenderedJune1();
    RenderedJune14();
  }
}
