/** A recurring rule through its edit form: what the page shows, what is posted back, and what is stored. */
module RuleForm {
  import opened Calendar
  import opened Catchup
  import opened CsvPort
  import opened Digits
  import opened Domain
  import opened Money
  import opened MoneyLaws
  import opened Recurrence
  import opened RuleService
  import opened Text

  /** The posted values; a field that the page does not have is posted as nothing. */
  datatype PostedForm = PostedForm(
    name: string,
    kind: string,
    amount: string,
    accountId: string,
    toAccountId: string,
    categoryId: string,
    note: string,
    freq: string,
    interval: string,
    dayOfMonth: string,
    nextRunAt: string,
    endAt: string,
    active: string)

  // ---- the handler ----

  function Clamp(n: int): int {
    if n > MAX_INT64 then MAX_INT64 else if n < MIN_INT64 then MIN_INT64 else n
  }

  predicate Signed(s: string) {
    s != "" && (s[0] == '-' || s[0] == '+')
  }

  /** strconv.Atoi with its error dropped: 0 for no number, the nearest int64 for one out of range. */
  function Atoi(s: string): int {
    var digits := if Signed(s) then s[1..] else s;
    if digits == "" || !AllDigits(digits) then 0
    else Clamp(if s[0] == '-' then -Val(digits) else Val(digits))
  }

  function ParseForm(f: PostedForm): Result<RuleInput> {
    var amount := ParseText(f.amount);
    if amount.Err? then Err(Invalid)
    else
      var next := ParseLayout(0, f.nextRunAt);
      if next.None? then Err(Invalid)
      else
        var endAt := if f.endAt != "" then ParseLayout(0, f.endAt) else None;
        Ok(RuleInput(f.name, f.kind, amount.value, f.accountId, f.toAccountId, f.categoryId, f.note, f.freq,
                     Atoi(f.interval), Atoi(f.dayOfMonth), next.value, endAt, f.active == "on"))
  }

  /** parseForm, then toDomain. */
  function Submit(f: PostedForm): Result<Rule> {
    var input := ParseForm(f);
    if input.Err? then Err(Invalid) else ToDomain(input.value)
  }

  // ---- the edit page ----

  function FreqText(freq: Freq): string {
    match freq
    case Daily => "daily"
    case Weekly => "weekly"
    case _ => "monthly"
  }

  /** The accounts and categories that the page offers. */
  datatype Options = Options(accounts: seq<Id>, categories: seq<Id>)

  /** A list without an empty entry starts out on its first entry if the value is not offered. */
  function Required(offered: seq<Id>, value: Id): Id {
    if value in offered then value else if offered == [] then "" else offered[0]
  }

  /** A list with an empty entry starts out on that. */
  function Optional(offered: seq<Id>, value: Option<Id>): Id {
    if value.Some? && value.value in offered then value.value else ""
  }

  /** The edit page of a rule as a browser would post it untouched: it has no field for the note, the day of
      the month or the end date, and shows the amount without its sen. */
  function Shown(r: Rule, o: Options): PostedForm
    requires MIN_INT64 <= r.amount <= MAX_INT64
  {
    PostedForm(r.name, KindText(r.kind), RupiahText(r.amount), Required(o.accounts, r.account),
               Optional(o.accounts, r.toAccount), Optional(o.categories, r.category), "", FreqText(r.freq),
               SprintD(r.interval), "", FormatDate(r.nextRunAt), "", if r.active then "on" else "")
  }

  /** What saving that page under a name stores. */
  function SaveAs(r: Rule, name: string, o: Options): Result<Rule>
    requires MIN_INT64 <= r.amount <= MAX_INT64
  {
    Submit(Shown(r, o).(name := name))
  }

  /** The table's checks that matter here; ids are never empty. */
  predicate Stored(r: Rule, o: Options) {
    && 0 < r.amount <= MAX_INT64
    && 1 <= r.interval <= MAX_INT64
    && r.freq != OtherFreq
    && r.account != "" && r.toAccount != Some("") && r.category != Some("")
    && "" !in o.accounts && "" !in o.categories
  }

  // ---- what a save does, field by field ----

  lemma AtoiOfDecimal(n: int)
    requires 0 <= n <= MAX_INT64
    ensures Atoi(SprintD(n)) == n
  {
    hide Decimal, Val;
    DecimalIsNumeral(n);
    assert IsDigit(Decimal(n)[0]);
  }

  lemma AtoiOfNothing()
    ensures Atoi("") == 0
  {
  }

  lemma FreqTextParses(freq: Freq)
    requires freq != OtherFreq
    ensures ParseFreq(FreqText(freq)) == freq
  {
  }

  lemma KindTextParses(kind: Kind)
    ensures ParseKind(KindText(kind)) == Some(kind)
  {
  }

  /** The date is posted back as shown, if a date field can hold it. */
  lemma DatePosted(day: Day)
    ensures FourDigitYear(day) ==> ParseLayout(0, FormatDate(day)) == Some(day)
    ensures !FourDigitYear(day) ==> ParseLayout(0, FormatDate(day)) == None
  {
    hide ParseLayout, FormatDate;
    if FourDigitYear(day) {
      DateRoundTrip(day);
    } else {
      OtherYearsUnread(day);
    }
  }

  lemma DecimalGrows(n: nat)
    requires n >= 10
    ensures |Decimal(n)| == |Decimal(n / 10)| + 1
  {
    hide Decimal;
    DecimalMore(n);
  }

  lemma DecimalLength(n: nat)
    ensures n >= 10000 ==> |Decimal(n)| >= 5
  {
    hide Decimal;
    if n >= 10000 {
      var a := n / 10;
      var b := a / 10;
      var c := b / 10;
      DecimalGrows(n); DecimalGrows(a); DecimalGrows(b); DecimalGrows(c);
    }
  }

  lemma PadFourLength(n: nat)
    ensures |PadFour(n)| >= 4 && (n >= 10000 ==> |PadFour(n)| >= 5)
  {
    hide Decimal, PadFour;
    if n < 10000 {
      PadFourIsFourDigits(n);
    } else {
      DecimalLength(n);
      PadFourLarge(n);
    }
  }

  lemma PadFourLarge(n: nat)
    requires n >= 1000
    ensures PadFour(n) == Decimal(n)
  {
    hide Decimal;
  }

  /** Longer and negative years do not fit the ten characters of the layout. */
  lemma OtherYearsUnread(day: Day)
    requires !FourDigitYear(day)
    ensures ParseLayout(0, FormatDate(day)) == None
  {
    hide Civil, PadFour, Two;
    FourDigitYearIff(day);
    var y := Civil(day).y;
    PadFourLength(if y < 0 then -y else y);
    assert |YearText(y)| >= 5;
    TwoReads(Civil(day).m);
    TwoReads(Civil(day).d);
    assert |FormatDate(day)| >= 11;
  }

  /** The account the page has selected is a proper one if it offers any. */
  lemma RequiredOffered(offered: seq<Id>, value: Id)
    requires "" !in offered && value != ""
    ensures Required(offered, value) == "" <==> offered == []
    ensures Required(offered, value) == value <==> value in offered
    ensures value !in offered && offered != [] ==> Required(offered, value) == offered[0]
  {
  }

  /** The stored result of a save that is accepted. */
  function AfterSave(r: Rule, name: string, o: Options): Rule {
    r.(name := TrimSpace(name),
       amount := WholeUnits(r.amount),
       account := Required(o.accounts, r.account),
       toAccount := if r.kind == Transfer then Some(Optional(o.accounts, r.toAccount)) else None,
       category := if r.kind != Transfer && Optional(o.categories, r.category) != ""
                   then Some(Optional(o.categories, r.category)) else None,
       note := "",
       dayOfMonth := None,
       endAt := None)
  }

  /** A save under a name is accepted if and only if the name is not blank, the amount is a whole unit or more,
      the date has a four-digit year and is not the zero time, and the selected accounts exist and differ.
      It then keeps kind, frequency, interval, position and active flag, and drops sen, note, day of the month
      and end date. */
  lemma SaveAcceptedIff(r: Rule, name: string, o: Options)
    requires Stored(r, o)
    ensures SaveAs(r, name, o).Ok? <==>
            && TrimSpace(name) != "" && r.amount >= 100
            && FourDigitYear(r.nextRunAt) && r.nextRunAt != ZERO_DAY
            && o.accounts != []
            && (r.kind == Transfer ==>
                  && Optional(o.accounts, r.toAccount) != ""
                  && Optional(o.accounts, r.toAccount) != Required(o.accounts, r.account))
    ensures SaveAs(r, name, o).Ok? ==> SaveAs(r, name, o).value == AfterSave(r, name, o)
  {
    hide ParseText, ParseLayout, FormatDate, RupiahText, Atoi, SprintD, TrimSpace, KindText, FreqText, ParseKind,
         ParseFreq, WholeUnits, Required, Optional;
    RoundTrip(r.amount);
    WholeUnitsPositive(r.amount);
    DatePosted(r.nextRunAt);
    AtoiOfDecimal(r.interval);
    AtoiOfNothing();
    FreqTextParses(r.freq);
    KindTextParses(r.kind);
    RequiredOffered(o.accounts, r.account);
    NothingTrimmed();
  }

  lemma WholeUnitsPositive(m: int)
    requires m > 0
    ensures WholeUnits(m) > 0 <==> m >= 100
    ensures WholeUnits(m) == m <==> m % 100 == 0
    ensures WholeUnits(m) <= m
  {
  }

  lemma NothingTrimmed()
    ensures TrimSpace("") == ""
  {
  }

  /** The page offers the rule's own accounts and category. */
  predicate Offers(r: Rule, o: Options) {
    && r.account in o.accounts
    && (r.toAccount.Some? ==> r.toAccount.value in o.accounts)
    && (r.category.Some? ==> r.category.value in o.categories)
  }

  /** A transfer has another target and no category; anything else has no target. */
  predicate Shaped(r: Rule) {
    if r.kind == Transfer then r.toAccount.Some? && r.toAccount.value != r.account && r.category.None?
    else r.toAccount.None?
  }

  /** Saving the untouched page changes nothing if and only if the rule has none of what the page lacks: no
      sen, no note, no day of the month and no end date, its accounts and category are offered, and its name
      and position are ones the form accepts. */
  lemma UntouchedSaveIsIdentityIff(r: Rule, o: Options)
    requires Stored(r, o)
    ensures SaveAs(r, r.name, o) == Ok(r) <==>
            && r.amount % 100 == 0 && r.note == "" && r.dayOfMonth.None? && r.endAt.None?
            && Offers(r, o) && Shaped(r)
            && r.name != "" && TrimSpace(r.name) == r.name
            && FourDigitYear(r.nextRunAt) && r.nextRunAt != ZERO_DAY
  {
    hide SaveAs, TrimSpace, WholeUnits;
    SaveAcceptedIff(r, r.name, o);
    WholeUnitsPositive(r.amount);
  }

  // ---- the fields that only the form for a new rule has ----

  /** A day of the month and an end date that are posted arrive in the rule, and so does their absence. */
  lemma NewRuleFields(f: PostedForm, day: int, end: Day)
    requires Submit(f).Ok?
    ensures f.freq == "monthly" && 1 <= day <= 31 && f.dayOfMonth == SprintD(day) ==>
              Submit(f).value.dayOfMonth == Some(day)
    ensures f.dayOfMonth == "" || f.freq != "monthly" ==> Submit(f).value.dayOfMonth == None
    ensures FourDigitYear(end) && f.endAt == FormatDate(end) ==> Submit(f).value.endAt == Some(end)
    ensures f.endAt == "" ==> Submit(f).value.endAt == None
    ensures Submit(f).value.active <==> f.active == "on"
    ensures f.nextRunAt == FormatDate(Submit(f).value.nextRunAt)
    ensures Submit(f).value.endAt.Some? ==> f.endAt == FormatDate(Submit(f).value.endAt.value)
  {
    hide ParseText, ParseLayout, FormatDate, Atoi, SprintD, ToDomain, FourDigitYear;
    RuleAcceptedIff(ParseForm(f).value);
    if 1 <= day <= 31 { AtoiOfDecimal(day); }
    AtoiOfNothing();
    DatePosted(end);
    DateTextExists(end);
    IsoIff(f.nextRunAt, ParseForm(f).value.nextRunAt);
    if ParseForm(f).value.endAt.Some? { IsoIff(f.endAt, ParseForm(f).value.endAt.value); }
  }

  lemma DateTextExists(day: Day)
    ensures FormatDate(day) != ""
  {
    hide Civil, YearText;
  }

  // ---- what a save does to the schedule ----

  /** An accepted save keeps the rule running at its position for ever: at every later date it owes something,
      also when the rule as loaded was past its end date and owed nothing. */
  lemma SaveRevives(r: Rule, name: string, o: Options, T: Day)
    requires Stored(r, o) && ScheduleOk(r) && r.active && r.nextRunAt <= T
    requires SaveAs(r, name, o).Ok?
    ensures ScheduleOk(SaveAs(r, name, o).value)
    ensures Outstanding(SaveAs(r, name, o).value, T) != []
    ensures Outstanding(r, T) == [] <==> Expired(r, r.nextRunAt)
  {
    hide SaveAs, Advance, Required, Optional, TrimSpace, WholeUnits;
    SaveAcceptedIff(r, name, o);
  }
}
