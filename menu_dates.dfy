/**
  `add_dates_to_menu`: every menu item whose "week" holds a usable week number gets
  the dates of its available days. The week's Monday follows `strptime`'s `%W`
  convention (week 1 starts on the year's first Monday, week 0 holds the days
  before it), dates are day ordinals as `date.toordinal()` counts them, and the
  current year is a parameter.
 */
module MenuDates {
  import opened Wrappers
  import opened Text

  // ---------------------------------------------------------------------------
  // JSON values, as `json.loads` produces them
  // ---------------------------------------------------------------------------

  datatype Json =
    | JNull
    | JBool(b: bool)
    | JInt(i: int)
    | JFloat(x: Float)
    | JStr(s: string)
    | JArr(elems: seq<Json>)
    | JObj(members: seq<(string, Json)>)   // a nested object, its members in insertion order
    | JDate(day: int)                       // the `isoformat()` text of the midnight of that day

  type Positive = n: int | n > 0 witness 1

  /**
    A JSON number with a fraction or an exponent, or one of `NaN`, `Infinity` and
    `-Infinity`: a finite float is the exact fraction `num / den` it stands for.
   */
  datatype Float = Finite(num: int, den: Positive) | NaN | Infinity(negative: bool)

  /** Python truthiness. */
  predicate Truthy(v: Json) {
    match v
    case JNull => false
    case JBool(b) => b
    case JInt(i) => i != 0
    case JFloat(x) => !(x.Finite? && x.num == 0)
    case JStr(s) => s != []
    case JArr(xs) => xs != []
    case JObj(ms) => ms != []
    case JDate(_) => true
  }

  // ---------------------------------------------------------------------------
  // `int(value)`
  // ---------------------------------------------------------------------------

  datatype Conversion = Converted(n: int) | ValueError | TypeError | OverflowError

  /**
    `int(v)`: integers and booleans convert, a finite float is truncated toward zero,
    NaN raises ValueError and an infinity OverflowError, text is parsed, and other
    values raise TypeError.
   */
  function IntOf(v: Json): Conversion {
    match v
    case JInt(i) => Converted(i)
    case JFloat(x) =>
      (match x
       case Finite(num, den) => Converted(Truncate(num, den))
       case NaN => ValueError
       case Infinity(_) => OverflowError)
    case JBool(b) => Converted(if b then 1 else 0)
    case JStr(s) => (match ParseInt(s) case Some(n) => Converted(n) case None => ValueError)
    case JDate(_) => ValueError
    case _ => TypeError
  }

  /** `num / den` rounded toward zero, as `int()` rounds a float. */
  function Truncate(num: int, den: Positive): int {
    if num >= 0 then num / den else -((-num) / den)
  }

  /** The truncation is the integer nearest zero among those at most one unit from the fraction. */
  lemma TruncateTowardZero(num: int, den: Positive)
    ensures var t := Truncate(num, den);
            (num >= 0 ==> 0 <= t && t * den <= num < (t + 1) * den)
            && (num < 0 ==> t <= 0 && (t - 1) * den < num <= t * den)
  {
    var a := if num >= 0 then num else -num;
    var q := a / den;
    DivBounds(a, den);
    if num < 0 {
      assert Truncate(num, den) == -q;
      assert -q * den == -(q * den) && (-q - 1) * den == -((q + 1) * den);
    }
  }

  lemma DivBounds(a: nat, den: Positive)
    ensures a / den >= 0 && (a / den) * den <= a < (a / den + 1) * den
  {
    var q := a / den;
    var r := a % den;
    assert a == den * q + r && 0 <= r < den;
    assert (q + 1) * den == q * den + den;
  }

  /** Digits, with single underscores allowed between two digits. */
  predicate DigitGroups(u: string) {
    u != [] && IsDigit(u[0])
    && forall k :: 0 <= k < |u| ==> IsDigit(u[k]) || (u[k] == '_' && k + 1 < |u| && IsDigit(u[k + 1]))
  }

  /** The decimal value of the digits of `u`, underscores skipped. */
  function DigitsValue(u: string): nat {
    if u == [] then 0
    else
      var c := u[|u| - 1];
      if IsDigit(c) then 10 * DigitsValue(u[..|u| - 1]) + (c as int - '0' as int)
      else DigitsValue(u[..|u| - 1])
  }

  /** `int(s)` for a string: surrounding whitespace, an optional sign, then digit groups. */
  function ParseInt(s: string): Option<int> {
    ParseStripped(Strip(s))
  }

  /** An optional sign, then digit groups. */
  function ParseStripped(t: string): Option<int> {
    var negative := t != [] && t[0] == '-';
    var u := if t != [] && (t[0] == '+' || t[0] == '-') then t[1..] else t;
    var v: int := DigitsValue(u);
    if DigitGroups(u) then Some(if negative then -v else v) else None
  }

  /** `str(n)` for a natural number. */
  function NatText(n: nat): (r: string)
    ensures r != [] && forall k :: 0 <= k < |r| ==> IsDigit(r[k])
  {
    var d := [(('0' as int) + n % 10) as char];
    if n < 10 then d else NatText(n / 10) + d
  }

  /** `str(i)` */
  function IntText(i: int): string {
    if i < 0 then "-" + NatText(-i) else NatText(i)
  }

  lemma {:induction false} DigitsValueOfNatText(n: nat)
    ensures DigitsValue(NatText(n)) == n
  {
    var r := NatText(n);
    if n >= 10 {
      DigitsValueOfNatText(n / 10);
      assert r[..|r| - 1] == NatText(n / 10);
    }
  }

  lemma AllDigitsAreGroups(u: string)
    requires u != [] && forall k :: 0 <= k < |u| ==> IsDigit(u[k])
    ensures DigitGroups(u)
  {
  }

  lemma AllDigitsStripped(u: string)
    requires u != [] && forall k :: 0 <= k < |u| ==> IsDigit(u[k])
    ensures Strip(u) == u
  {
    StripOfStripped(u);
  }

  /** `int(str(i)) == i`: converting an integer's text gives the integer back. */
  lemma IntOfIntText(i: int)
    ensures IntOf(JStr(IntText(i))) == Converted(i)
  {
    var m: nat := if i < 0 then -i else i;
    var digits := NatText(m);
    DigitsValueOfNatText(m);
    AllDigitsAreGroups(digits);
    IntTextStripped(i);
    ParseSigned(i < 0, digits);
  }

  /** The text of an integer has no surrounding whitespace. */
  lemma IntTextStripped(i: int)
    ensures Strip(IntText(i)) == IntText(i)
  {
    var t := IntText(i);
    var m: nat := if i < 0 then -i else i;
    var digits := NatText(m);
    assert !IsSpace(digits[|digits| - 1]) && !IsSpace(digits[0]);
    assert t[|t| - 1] == digits[|digits| - 1];
    StripOfStripped(t);
  }

  /** Parsing an optional minus followed by digit groups. */
  lemma ParseSigned(negative: bool, digits: string)
    requires DigitGroups(digits)
    ensures var t := (if negative then "-" else "") + digits;
            var v: int := DigitsValue(digits);
            ParseStripped(t) == Some(if negative then -v else v)
  {
    var t := (if negative then "-" else "") + digits;
    assert t[0] == (if negative then '-' else digits[0]);
    if negative {
      assert t[1..] == digits;
    } else {
      assert t == digits;
    }
  }

  // ---------------------------------------------------------------------------
  // The calendar: `strptime(f"{year}-W{week}-1", "%Y-W%W-%w")`
  // ---------------------------------------------------------------------------

  /** The years whose `%Y` text is four digits and whose weeks stay inside `date`'s range. */
  predicate ValidYear(year: int) {
    1000 <= year <= 9998
  }

  /** `%W` takes one or two digits from 0 to 53; any other week number raises ValueError. */
  predicate WeekAccepted(w: int) {
    0 <= w <= 53
  }

  /** `date(year, 1, 1).toordinal()` */
  function NewYear(year: int): int
    requires year >= 1
  {
    var p := year - 1;
    p * 365 + p / 4 - p / 100 + p / 400 + 1
  }

  /** `date.fromordinal(d).weekday()`: Monday is 0. */
  function Weekday(d: int): int {
    (d + 6) % 7
  }

  /** The Monday of week `w` of `year` in the `%W` numbering, as a day ordinal. */
  function WeekMonday(year: int, w: int): int
    requires year >= 1 && WeekAccepted(w)
  {
    var f := Weekday(NewYear(year));
    if w == 0 then NewYear(year) - f
    else NewYear(year) + (7 - f) % 7 + 7 * (w - 1)
  }

  /** Every week starts on a Monday. */
  lemma WeekMondayIsMonday(year: int, w: int)
    requires year >= 1 && WeekAccepted(w)
    ensures Weekday(WeekMonday(year, w)) == 0
  {
    MondaysFrom(NewYear(year), w);
  }

  /** Counting back to the Monday on or before day `n`, or on to the next Monday, lands on a Monday. */
  lemma MondaysFrom(n: int, w: int)
    requires w >= 0
    ensures Weekday(n - Weekday(n)) == 0
    ensures w >= 1 ==> Weekday(n + (7 - Weekday(n)) % 7 + 7 * (w - 1)) == 0
  {
    var f := Weekday(n);
    var q := (n + 6) / 7;
    assert n + 6 == 7 * q + f;
    assert n - f + 6 == 7 * q;
    if w >= 1 {
      var m := n + (7 - f) % 7 + 7 * (w - 1);
      if f == 0 {
        assert m + 6 == 7 * (q + w - 1);
      } else {
        assert (7 - f) % 7 == 7 - f;
        assert m + 6 == 7 * (q + w);
      }
    }
  }

  /**
    Week 1 starts on the first Monday of the year, each later week seven days after
    the one before, and week 0 on the Monday on or before 1 January; weeks 0 and 1
    share their Monday exactly when the year starts on a Monday.
   */
  lemma WeekNumbering(year: int, w: int)
    requires year >= 1 && 1 <= w < 53
    ensures NewYear(year) <= WeekMonday(year, 1) < NewYear(year) + 7
    ensures WeekMonday(year, w + 1) == WeekMonday(year, w) + 7
    ensures WeekMonday(year, 0) <= NewYear(year) < WeekMonday(year, 0) + 7
    ensures WeekMonday(year, 0) == WeekMonday(year, 1) <==> Weekday(NewYear(year)) == 0
  {
  }

  // ---------------------------------------------------------------------------
  // Availability labels
  // ---------------------------------------------------------------------------

  /** `day_offsets` */
  const DayOffsets: map<string, nat> := map[
    "Monday" := 0, "Tuesday" := 1, "Wednesday" := 2, "Thursday" := 3,
    "Friday" := 4, "Saturday" := 5, "Sunday" := 6]

  /** The availability written onto an item whose own is missing or empty. */
  const Workdays: Json := JArr([JStr("Monday"), JStr("Tuesday"), JStr("Wednesday"), JStr("Thursday"), JStr("Friday")])

  /**
    `for day in availability`: the labels iterating the value yields (characters for
    text, keys for an object); None where iterating raises TypeError. A date's text
    holds no day name, so its characters are left out.
   */
  function Labels(v: Json): Option<seq<Json>> {
    match v
    case JArr(xs) => Some(xs)
    case JObj(ms) => Some(seq(|ms|, i requires 0 <= i < |ms| => JStr(ms[i].0)))
    case JStr(s) => Some(seq(|s|, i requires 0 <= i < |s| => JStr([s[i]])))
    case JDate(_) => Some([])
    case _ => None
  }

  /** `day in day_offsets` raises TypeError for lists and dicts. */
  predicate Hashable(v: Json) {
    !v.JArr? && !v.JObj?
  }

  predicate AllHashable(labels: seq<Json>) {
    forall i :: 0 <= i < |labels| ==> Hashable(labels[i])
  }

  /** The offset of a label naming a day, case-sensitively. */
  function KnownOffset(v: Json): Option<nat> {
    if v.JStr? && v.s in DayOffsets then Some(DayOffsets[v.s]) else None
  }

  /** `availability_dates`: the date of each known label, in label order. */
  function Dates(labels: seq<Json>, monday: int): (ds: seq<int>)
    ensures forall d :: d in ds ==> monday <= d <= monday + 6
  {
    if labels == [] then []
    else
      var last := labels[|labels| - 1];
      Dates(labels[..|labels| - 1], monday)
      + (match KnownOffset(last) case Some(o) => [monday + o] case None => [])
  }

  /** `min` of a non-empty list. */
  function SeqMin(xs: seq<int>): (m: int)
    requires xs != []
    ensures m in xs && forall x :: x in xs ==> m <= x
  {
    if |xs| == 1 then xs[0]
    else
      var rest := SeqMin(xs[1..]);
      assert xs == [xs[0]] + xs[1..];
      if xs[0] <= rest then xs[0] else rest
  }

  /** `max` of a non-empty list. */
  function SeqMax(xs: seq<int>): (m: int)
    requires xs != []
    ensures m in xs && forall x :: x in xs ==> x <= m
  {
    if |xs| == 1 then xs[0]
    else
      var rest := SeqMax(xs[1..]);
      assert xs == [xs[0]] + xs[1..];
      if xs[0] >= rest then xs[0] else rest
  }

  /** `{"$date": d.isoformat()}`, or `{"$date": None}`. */
  function DateField(d: Option<int>): Json {
    JObj([("$date", if d.Some? then JDate(d.value) else JNull)])
  }

  // ---------------------------------------------------------------------------
  // One item
  // ---------------------------------------------------------------------------

  /**
    What processing one item does: leave it, replace its fields, or raise an
    exception other than ValueError (TypeError or OverflowError), which escapes.
   */
  datatype Step = Keep | Replace(fields: map<string, Json>) | Raise

  /** The availability `item.get("availability", [])` finds. */
  function GivenAvailability(f: map<string, Json>): Json {
    if "availability" in f then f["availability"] else JArr([])
  }

  /** The new fields of an item with a usable week whose labels all hash. */
  function WithDates(f: map<string, Json>, labels: seq<Json>, monday: int): map<string, Json> {
    var f1 := if Truthy(GivenAvailability(f)) then f else f["availability" := Workdays];
    var ds := Dates(labels, monday);
    var from := if ds == [] then None else Some(SeqMin(ds));
    var to := if ds == [] then None else Some(SeqMax(ds));
    f1["validFrom" := DateField(from)]["validTo" := DateField(to)] - {"week"}
  }

  /** The body of the loop of `add_dates_to_menu` for an item with fields `f`. */
  function DatedFields(f: map<string, Json>, year: int): Step
    requires ValidYear(year)
  {
    if "week" !in f then Keep
    else
      match IntOf(f["week"])
      case TypeError => Raise
      case OverflowError => Raise
      case ValueError => Keep
      case Converted(w) =>
        if !WeekAccepted(w) then Keep
        else
          var given := GivenAvailability(f);
          var availability := if Truthy(given) then given else Workdays;
          match Labels(availability)
          case None => Raise
          case Some(labels) =>
            if !AllHashable(labels) then Raise
            else Replace(WithDates(f, labels, WeekMonday(year, w)))
  }

  /** The item's fields after the loop body ran without raising. */
  function Applied(f: map<string, Json>, year: int): map<string, Json>
    requires ValidYear(year)
  {
    match DatedFields(f, year)
    case Replace(g) => g
    case _ => f
  }

  /**
    An item is left as it is exactly when it has no "week", or its week does not
    convert (ValueError, NaN included) or is outside 0..53; it raises exactly when its
    week is null, a list, an object or an infinity, or when a usable week meets an
    availability that cannot be iterated or holds a list or an object.
   */
  lemma DatedFieldsOutcome(f: map<string, Json>, year: int)
    requires ValidYear(year)
    ensures DatedFields(f, year).Keep? <==>
            "week" !in f || IntOf(f["week"]).ValueError?
            || (IntOf(f["week"]).Converted? && !WeekAccepted(IntOf(f["week"]).n))
    ensures DatedFields(f, year).Raise? <==>
            "week" in f && (f["week"].JNull? || f["week"].JArr? || f["week"].JObj?
            || (f["week"].JFloat? && f["week"].x.Infinity?)
            || (IntOf(f["week"]).Converted? && WeekAccepted(IntOf(f["week"]).n)
                && Truthy(GivenAvailability(f))
                && (Labels(GivenAvailability(f)).None? || !AllHashable(Labels(GivenAvailability(f)).value))))
  {
    if "week" in f && IntOf(f["week"]).Converted? && WeekAccepted(IntOf(f["week"]).n)
       && !Truthy(GivenAvailability(f)) {
      WorkdaysLabels();
    }
  }

  /**
    A float week behaves as the integer `int()` truncates it to; a NaN week leaves
    the item as it is, and an infinite week escapes.
   */
  lemma FloatWeek(f: map<string, Json>, year: int)
    requires ValidYear(year) && "week" in f && f["week"].JFloat?
    ensures f["week"].x.Finite? ==>
              DatedFields(f, year) == DatedFields(f["week" := JInt(Truncate(f["week"].x.num, f["week"].x.den))], year)
    ensures f["week"].x.NaN? ==> DatedFields(f, year) == Keep
    ensures f["week"].x.Infinity? ==> DatedFields(f, year) == Raise
  {
    var x := f["week"].x;
    if x.Finite? {
      var g := f["week" := JInt(Truncate(x.num, x.den))];
      assert GivenAvailability(g) == GivenAvailability(f);
      forall labels: seq<Json>, monday: int
        ensures WithDates(g, labels, monday) == WithDates(f, labels, monday)
      {
        assert g - {"week"} == f - {"week"};
      }
    }
  }

  /** `46.7` is week 46, and `-0.5` is week 0: `int()` truncates toward zero. */
  lemma FloatWeekTruncates(f: map<string, Json>, year: int)
    requires ValidYear(year) && "week" in f
    ensures f["week"] == JFloat(Finite(467, 10)) ==> DatedFields(f, year) == DatedFields(f["week" := JInt(46)], year)
    ensures f["week"] == JFloat(Finite(-1, 2)) ==>
              DatedFields(f, year) == DatedFields(f["week" := JInt(0)], year) && !DatedFields(f, year).Keep?
  {
    if f["week"].JFloat? {
      FloatWeek(f, year);
    }
    if f["week"] == JFloat(Finite(-1, 2)) {
      DatedFieldsOutcome(f, year);
    }
  }

  /** The default availability names Monday to Friday, each a hashable label. */
  lemma WorkdaysLabels()
    ensures Labels(Workdays).Some? && AllHashable(Labels(Workdays).value)
    ensures Labels(Workdays).value == Workdays.elems
  {
  }

  /**
    An item whose usable week comes with a missing or empty availability is given
    Monday to Friday, valid from that week's Monday to its Friday.
   */
  lemma DatedFieldsDefault(f: map<string, Json>, year: int)
    requires ValidYear(year) && "week" in f
    requires IntOf(f["week"]).Converted? && WeekAccepted(IntOf(f["week"]).n)
    requires !Truthy(GivenAvailability(f))
    ensures var monday := WeekMonday(year, IntOf(f["week"]).n);
            DatedFields(f, year).Replace?
            && DatedFields(f, year).fields["availability"] == Workdays
            && DatedFields(f, year).fields["validFrom"] == DateField(Some(monday))
            && DatedFields(f, year).fields["validTo"] == DateField(Some(monday + 4))
  {
    var monday := WeekMonday(year, IntOf(f["week"]).n);
    var g := WithDates(f, Workdays.elems, monday);
    assert DatedFields(f, year) == Replace(g) by {
      WorkdaysLabels();
    }
    WithDatesFields(f, Workdays.elems, monday);
    WorkdayDates(monday);
    RunBounds(monday);
  }

  /** The earliest and latest of five consecutive days. */
  lemma RunBounds(m: int)
    ensures SeqMin([m, m + 1, m + 2, m + 3, m + 4]) == m
    ensures SeqMax([m, m + 1, m + 2, m + 3, m + 4]) == m + 4
  {
    var xs := [m, m + 1, m + 2, m + 3, m + 4];
    assert xs[0] == m && xs[4] == m + 4;
    assert forall x :: x in xs ==> m <= x <= m + 4;
    var lo := SeqMin(xs);
    var hi := SeqMax(xs);
    assert m in xs && m + 4 in xs;
    assert lo in xs && hi in xs;
  }

  /** The dates of Monday to Friday are the five days from the Monday on. */
  lemma WorkdayDates(monday: int)
    ensures Dates(Workdays.elems, monday) == [monday, monday + 1, monday + 2, monday + 3, monday + 4]
  {
    var xs := Workdays.elems;
    assert forall i :: 0 <= i < |xs| ==> KnownOffset(xs[i]) == Some(i);
    DatesOfConsecutive(xs, monday);
  }

  /** Labels naming consecutive days from Monday on give consecutive dates. */
  lemma {:induction false} DatesOfConsecutive(labels: seq<Json>, monday: int)
    requires forall i :: 0 <= i < |labels| ==> KnownOffset(labels[i]) == Some(i)
    ensures |Dates(labels, monday)| == |labels|
    ensures forall i :: 0 <= i < |labels| ==> Dates(labels, monday)[i] == monday + i
  {
    if labels != [] {
      var n := |labels| - 1;
      DatesOfConsecutive(labels[..n], monday);
      DatesSnoc(labels[..n], labels[n], monday);
      assert labels[..n] + [labels[n]] == labels;
    }
  }

  /** One more label adds its date when it names a day. */
  lemma DatesSnoc(labels: seq<Json>, x: Json, monday: int)
    ensures Dates(labels + [x], monday) ==
            Dates(labels, monday) + (match KnownOffset(x) case Some(o) => [monday + o] case None => [])
  {
    assert (labels + [x])[..|labels|] == labels;
  }

  /**
    A processed item loses "week"; its validFrom and validTo are both null when no
    label names a day, and otherwise the dates of the earliest and latest named days,
    both in the week starting on the Monday of the item's week.
   */
  lemma DatedFieldsSpan(f: map<string, Json>, year: int) returns (monday: int, from: Option<int>, to: Option<int>)
    requires ValidYear(year) && DatedFields(f, year).Replace?
    ensures monday == WeekMonday(year, IntOf(f["week"]).n) && Weekday(monday) == 0
    ensures var g := DatedFields(f, year).fields;
            "week" !in g && "validFrom" in g && "validTo" in g
            && g["validFrom"] == DateField(from) && g["validTo"] == DateField(to)
    ensures from.None? <==> to.None?
    ensures from.Some? ==> monday <= from.value <= to.value <= monday + 6
  {
    var w := IntOf(f["week"]).n;
    monday := WeekMonday(year, w);
    WeekMondayIsMonday(year, w);
    var given := GivenAvailability(f);
    var availability := if Truthy(given) then given else Workdays;
    var labels := Labels(availability).value;
    var ds := Dates(labels, monday);
    assert DatedFields(f, year).fields == WithDates(f, labels, monday);
    WithDatesFields(f, labels, monday);
    if ds != [] {
      from, to := Some(SeqMin(ds)), Some(SeqMax(ds));
    } else {
      from, to := None, None;
    }
  }

  /** Where `WithDates` puts the dates, and what availability it leaves. */
  lemma WithDatesFields(f: map<string, Json>, labels: seq<Json>, monday: int)
    ensures var g := WithDates(f, labels, monday);
            var ds := Dates(labels, monday);
            "week" !in g && "validFrom" in g && "validTo" in g && "availability" in g
            && g["validFrom"] == DateField(if ds == [] then None else Some(SeqMin(ds)))
            && g["validTo"] == DateField(if ds == [] then None else Some(SeqMax(ds)))
            && GivenAvailability(g) == (if Truthy(GivenAvailability(f)) then GivenAvailability(f) else Workdays)
  {
  }

  /** A processed item keeps every field other than week, availability, validFrom and validTo. */
  lemma DatedFieldsKeepsOthers(f: map<string, Json>, year: int, k: string)
    requires ValidYear(year) && DatedFields(f, year).Replace?
    requires k != "week" && k != "availability" && k != "validFrom" && k != "validTo"
    ensures var g := DatedFields(f, year).fields;
            (k in g <==> k in f) && (k in f ==> g[k] == f[k])
    ensures Truthy(GivenAvailability(f)) ==>
            GivenAvailability(DatedFields(f, year).fields) == GivenAvailability(f)
  {
  }

  /** A processed item is settled: processing it again leaves it as it is. */
  lemma AppliedIsSettled(f: map<string, Json>, year: int)
    requires ValidYear(year) && !DatedFields(f, year).Raise?
    ensures DatedFields(Applied(f, year), year) == Keep
  {
  }

  // ---------------------------------------------------------------------------
  // The items, updated in place
  // ---------------------------------------------------------------------------

  /** Monday and Wednesday make the item valid from the week's Monday to its Wednesday. */
  lemma MondayToWednesday(f: map<string, Json>, year: int, w: int)
    requires ValidYear(year) && WeekAccepted(w)
    requires "week" in f && f["week"] == JInt(w)
    requires GivenAvailability(f) == JArr([JStr("Monday"), JStr("Wednesday")])
    ensures var monday := WeekMonday(year, w);
            DatedFields(f, year).Replace?
            && DatedFields(f, year).fields["validFrom"] == DateField(Some(monday))
            && DatedFields(f, year).fields["validTo"] == DateField(Some(monday + 2))
  {
    var labels := GivenAvailability(f).elems;
    var monday := WeekMonday(year, w);
    assert AllHashable(labels);
    assert DatedFields(f, year) == Replace(WithDates(f, labels, monday));
    WithDatesFields(f, labels, monday);
    MondayWednesdayDates(labels, monday);
  }

  lemma MondayWednesdayDates(labels: seq<Json>, monday: int)
    requires labels == [JStr("Monday"), JStr("Wednesday")]
    ensures SeqMin(Dates(labels, monday)) == monday && SeqMax(Dates(labels, monday)) == monday + 2
  {
    assert KnownOffset(labels[0]) == Some(0) && KnownOffset(labels[1]) == Some(2);
    DatesSnoc([labels[0]], labels[1], monday);
    assert [labels[0]] + [labels[1]] == labels;
    var ds := Dates(labels, monday);
    assert ds == [monday, monday + 2];
    assert ds[0] == monday && ds[1] == monday + 2;
  }

  /** A menu item: a JSON object whose fields `add_dates_to_menu` changes in place. */
  class MenuItem {
    var fields: map<string, Json>

    constructor (fields: map<string, Json>)
      ensures this.fields == fields
    {
      this.fields := fields;
    }
  }

  /** The inner loop: the dates of the known labels; true when a label cannot be hashed. */
  method CollectDates(labels: seq<Json>, monday: int) returns (dates: seq<int>, raised: bool)
    ensures raised <==> !AllHashable(labels)
    ensures !raised ==> dates == Dates(labels, monday)
  {
    dates := [];
    for i := 0 to |labels|
      invariant AllHashable(labels[..i])
      invariant dates == Dates(labels[..i], monday)
    {
      assert labels[..i + 1][..i] == labels[..i];
      var day := labels[i];
      if !Hashable(day) {
        return [], true;
      }
      if day.JStr? && day.s in DayOffsets {
        dates := dates + [monday + DayOffsets[day.s]];
      }
    }
    assert labels[..|labels|] == labels;
    raised := false;
  }

  /** The body of the outer loop for one item; true when it raised TypeError or OverflowError. */
  method AddDates(item: MenuItem, year: int) returns (raised: bool)
    requires ValidYear(year)
    modifies item
    ensures raised <==> DatedFields(old(item.fields), year).Raise?
    ensures item.fields == Applied(old(item.fields), year)
  {
    ghost var f := item.fields;
    if "week" !in item.fields {
      return false;
    }
    var week := IntOf(item.fields["week"]);
    if week.TypeError? || week.OverflowError? {
      return true;
    }
    if week.ValueError? || !WeekAccepted(week.n) {
      return false;
    }
    var startDate := WeekMonday(year, week.n);
    var availability := GivenAvailability(item.fields);
    if !Truthy(availability) {
      WorkdaysLabels();
      availability := Workdays;
      item.fields := item.fields["availability" := availability];
    }
    var labels := Labels(availability);
    if labels.None? {
      return true;
    }
    var dates, unhashable := CollectDates(labels.value, startDate);
    if unhashable {
      return true;
    }
    if dates != [] {
      item.fields := item.fields["validFrom" := DateField(Some(SeqMin(dates)))];
      item.fields := item.fields["validTo" := DateField(Some(SeqMax(dates)))];
    } else {
      item.fields := item.fields["validFrom" := DateField(None)];
      item.fields := item.fields["validTo" := DateField(None)];
    }
    item.fields := item.fields - {"week"};
    assert item.fields == WithDates(f, labels.value, startDate);
    raised := false;
  }

  /** How `add_dates_to_menu` ended: normally, or with an exception escaping at item `at`. */
  datatype Outcome = Completed | Aborted(at: nat)

  /**
    `add_dates_to_menu(menu_data)` over the items of the array, updated in place.
    The same object listed twice is processed once: the second visit finds it settled.
   */
  method AddDatesToMenu(items: seq<MenuItem>, year: int) returns (outcome: Outcome)
    requires ValidYear(year)
    modifies items
    ensures outcome.Completed? <==>
            forall j :: 0 <= j < |items| ==> !DatedFields(old(items[j].fields), year).Raise?
    ensures outcome.Completed? ==>
            forall j :: 0 <= j < |items| ==> items[j].fields == Applied(old(items[j].fields), year)
    ensures outcome.Aborted? ==>
            var k := outcome.at;
            k < |items| && DatedFields(old(items[k].fields), year).Raise?
            && (forall j :: 0 <= j < k ==> !DatedFields(old(items[j].fields), year).Raise?)
            && (forall j :: 0 <= j < k ==> items[j].fields == Applied(old(items[j].fields), year))
            && (forall j :: k <= j < |items| && items[j] !in items[..k] ==> items[j].fields == old(items[j].fields))
  {
    for i := 0 to |items|
      invariant forall j :: 0 <= j < i ==>
                  !DatedFields(old(items[j].fields), year).Raise?
                  && items[j].fields == Applied(old(items[j].fields), year)
      invariant forall j :: i <= j < |items| && items[j] !in items[..i] ==> items[j].fields == old(items[j].fields)
      invariant forall o :: o in items ==> o.fields == old(o.fields) || o in items[..i]
    {
      var item := items[i];
      if item in items[..i] {
        var j :| 0 <= j < i && items[j] == item;
        AppliedIsSettled(old(items[j].fields), year);
      }
      var raised := AddDates(item, year);
      if raised {
        return Aborted(i);
      }
    }
    return Completed;
  }
}
