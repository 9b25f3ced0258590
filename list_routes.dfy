/**
 * The route listing: the per-route trip counts of one day, tagged as
 * frequent or not, with the school routes (numbers 600 to 699) optionally
 * dropped. The grouped query itself is an input: a sequence of rows.
 */
module ListRoutes {
  import opened Wrappers
  import opened Rows
  import opened Decimal

  /** One row of the grouped query: a route and its distinct trip count. */
  datatype RouteRow = RouteRow(routeId: string, tripCount: nat)

  /** One entry of the answer. */
  datatype RouteSummary = RouteSummary(routeId: string, tripCount: nat, frequency: string)

  /** The frequent transit network: routes with service every 15 minutes or better at peak. */
  const FrequentRouteIds: set<string> := {
    "5", "6", "7", "10", "11", "12", "14", "25", "40", "41", "44", "45",
    "57", "61", "62", "63", "68", "74", "75", "80", "85", "87", "88", "90", "98", "111"
  }

  const Frequent: string := "frequent"
  const NonFrequent: string := "non-frequent"

  // ---------------------------------------------------------------------
  // parseInt(s, 10)
  // ---------------------------------------------------------------------

  /**
   * The white space `parseInt` skips before the number: tab, line
   * tabulation, form feed, the space separators, the byte order mark and
   * the line terminators.
   */
  predicate IsSpace(c: char)
  {
    || c == '\t' || c == '\n' || c == '\U{B}' || c == '\U{C}' || c == '\r'
    || c == ' ' || c == '\U{A0}' || c == '\U{1680}' || '\U{2000}' <= c <= '\U{200A}'
    || c == '\U{2028}' || c == '\U{2029}' || c == '\U{202F}' || c == '\U{205F}'
    || c == '\U{3000}' || c == '\U{FEFF}'
  }

  /** `s` without its leading white space. */
  function TrimStart(s: string): (t: string)
    ensures |t| <= |s| && t == s[|s| - |t|..]
    ensures forall i | 0 <= i < |s| - |t| :: IsSpace(s[i])
    ensures t == [] || !IsSpace(t[0])
  {
    if s != [] && IsSpace(s[0]) then TrimStart(s[1..]) else s
  }

  /** The longest run of decimal digits at the front of `s`. */
  function DigitRun(s: string): (d: string)
    ensures |d| <= |s| && d == s[..|d|]
    ensures AllDigits(d)
    ensures |d| == |s| || !IsDigit(s[|d|])
  {
    if s != [] && IsDigit(s[0]) then [s[0]] + DigitRun(s[1..]) else []
  }

  /** `t` without the one sign character it may start with. */
  function AfterSign(t: string): (u: string)
    ensures t != [] && (t[0] == '-' || t[0] == '+') ==> u == t[1..]
    ensures t == [] || (t[0] != '-' && t[0] != '+') ==> u == t
  {
    if t != [] && (t[0] == '-' || t[0] == '+') then t[1..] else t
  }

  /**
   * The number at the front of a text with no leading white space: an
   * optional sign, then the longest run of digits; `None` when no digit
   * follows the sign.
   */
  function ReadSignedInteger(t: string): (r: Option<int>)
    ensures var u := AfterSign(t);
      r.None? <==> u == [] || !IsDigit(u[0])
  {
    var digits := DigitRun(AfterSign(t));
    var magnitude: int := DigitsValue(digits);
    if digits == [] then None
    else if t[0] == '-' then Some(-magnitude)
    else Some(magnitude)
  }

  /**
   * `parseInt(s, 10)`: skip leading white space, read an optional sign,
   * then the longest run of digits; `None` stands for `NaN`, which is the
   * answer exactly when no digit follows the sign.
   */
  function ParseInt10(s: string): (r: Option<int>)
    ensures var u := AfterSign(TrimStart(s));
      r.None? <==> u == [] || !IsDigit(u[0])
  {
    ReadSignedInteger(TrimStart(s))
  }

  /** A school route: its leading integer is a number from 600 to 699. */
  predicate IsSchoolRoute(routeId: string)
    ensures IsSchoolRoute(routeId) ==> TrimStart(routeId) != [] && TrimStart(routeId)[0] != '-'
  {
    var n := ParseInt10(routeId);
    n.Some? && 600 <= n.value < 700
  }

  // ---------------------------------------------------------------------
  // The map and the filter
  // ---------------------------------------------------------------------

  /** The entry for a row that is kept: its route, its trip count and its frequency tag. */
  function Summary(row: RouteRow): (r: RouteSummary)
    ensures r.routeId == row.routeId && r.tripCount == row.tripCount
    ensures r.frequency == Frequent <==> row.routeId in FrequentRouteIds
    ensures r.frequency == NonFrequent <==> row.routeId !in FrequentRouteIds
  {
    RouteSummary(row.routeId, row.tripCount, if row.routeId in FrequentRouteIds then Frequent else NonFrequent)
  }

  /** The map callback: `null` for a school route when they are excluded, the entry otherwise. */
  function RouteEntry(row: RouteRow, excludeSchool: bool): (r: Option<RouteSummary>)
    ensures r.None? <==> excludeSchool && IsSchoolRoute(row.routeId)
    ensures r.Some? ==> r.value == Summary(row)
  {
    if excludeSchool && IsSchoolRoute(row.routeId) then None else Some(Summary(row))
  }

  /** `.filter(x => x !== null)`: the present entries, in order. */
  function Present<T>(s: seq<Option<T>>): (r: seq<T>)
    ensures |r| <= |s|
    ensures forall i | 0 <= i < |r| :: Some(r[i]) in s
    ensures forall i | 0 <= i < |s| && s[i].Some? :: s[i].value in r
  {
    if s == [] then []
    else if s[0].Some? then [s[0].value] + Present(s[1..])
    else Present(s[1..])
  }

  /** `.map(...)`: one entry or null per row, in order. */
  function Entries(rows: seq<RouteRow>, excludeSchool: bool): (r: seq<Option<RouteSummary>>)
    ensures |r| == |rows|
    ensures forall i | 0 <= i < |rows| :: r[i] == RouteEntry(rows[i], excludeSchool)
  {
    if rows == [] then [] else [RouteEntry(rows[0], excludeSchool)] + Entries(rows[1..], excludeSchool)
  }

  /** The answer: every row mapped, then the nulls dropped. */
  function ListRoutes(rows: seq<RouteRow>, excludeSchool: bool): (r: seq<RouteSummary>)
    ensures |r| <= |rows|
  {
    Present(Entries(rows, excludeSchool))
  }

  /** Every listed entry is the summary of a row the callback kept. */
  lemma ListedEntriesSummariseKeptRows(rows: seq<RouteRow>, excludeSchool: bool, i: int)
    requires 0 <= i < |ListRoutes(rows, excludeSchool)|
    ensures exists row | row in rows ::
      ListRoutes(rows, excludeSchool)[i] == Summary(row) && !(excludeSchool && IsSchoolRoute(row.routeId))
  {
    var e := Entries(rows, excludeSchool);
    var r := Present(e);
    assert Some(r[i]) in e;
    var j :| 0 <= j < |e| && e[j] == Some(r[i]);
    assert rows[j] in rows && r[i] == Summary(rows[j]);
  }

  // ---------------------------------------------------------------------
  // A reference definition: filter the rows, then summarise them
  // ---------------------------------------------------------------------

  /** The rows a listing keeps. */
  function KeepRow(excludeSchool: bool): RouteRow -> bool
  {
    (row: RouteRow) => !(excludeSchool && IsSchoolRoute(row.routeId))
  }

  function Summaries(rows: seq<RouteRow>): (r: seq<RouteSummary>)
    ensures |r| == |rows|
    ensures forall i | 0 <= i < |rows| :: r[i] == Summary(rows[i])
  {
    if rows == [] then [] else [Summary(rows[0])] + Summaries(rows[1..])
  }

  /** Mapping with nulls and then dropping them is filtering and then summarising. */
  lemma {:induction false} ListRoutesIsFilterThenMap(rows: seq<RouteRow>, excludeSchool: bool)
    ensures ListRoutes(rows, excludeSchool) == Summaries(Filter(rows, KeepRow(excludeSchool)))
  {
    if rows != [] {
      ListRoutesIsFilterThenMap(rows[1..], excludeSchool);
      if KeepRow(excludeSchool)(rows[0]) {
        assert Filter(rows, KeepRow(excludeSchool))[1..] == Filter(rows[1..], KeepRow(excludeSchool));
      }
    }
  }

  // ---------------------------------------------------------------------
  // Properties of the listing
  // ---------------------------------------------------------------------

  /** Without the school filter every row gives one entry, in the same order. */
  lemma NothingDroppedWithoutExclusion(rows: seq<RouteRow>)
    ensures |ListRoutes(rows, false)| == |rows|
    ensures forall i | 0 <= i < |rows| :: ListRoutes(rows, false)[i] == Summary(rows[i])
  {
    ListRoutesIsFilterThenMap(rows, false);
    FilterKeepsAll(rows, KeepRow(false));
  }

  /** The listing has one entry per kept row: all rows less the school routes when they are excluded. */
  lemma ListedCount(rows: seq<RouteRow>, excludeSchool: bool)
    ensures |ListRoutes(rows, excludeSchool)| == CountWhere(rows, KeepRow(excludeSchool))
  {
    ListRoutesIsFilterThenMap(rows, excludeSchool);
    FilterLength(rows, KeepRow(excludeSchool));
  }

  /** With the school filter on, a row's entry is listed exactly when its route is not a school route. */
  lemma ListedIffNotSchool(rows: seq<RouteRow>, row: RouteRow)
    requires row in rows
    ensures Summary(row) in ListRoutes(rows, true) <==> !IsSchoolRoute(row.routeId)
  {
    ListRoutesIsFilterThenMap(rows, true);
    var kept := Filter(rows, KeepRow(true));
    if Summary(row) in Summaries(kept) {
      var i :| 0 <= i < |kept| && Summaries(kept)[i] == Summary(row);
      assert kept[i] in kept;
      assert kept[i].routeId == row.routeId;
    }
    if !IsSchoolRoute(row.routeId) {
      assert row in kept;
      var i :| 0 <= i < |kept| && kept[i] == row;
      assert Summaries(kept)[i] == Summary(row);
    }
  }

  /** A route id with no leading integer (NaN) is never dropped. */
  lemma NaNNeverDropped(rows: seq<RouteRow>, row: RouteRow, excludeSchool: bool)
    requires row in rows && ParseInt10(row.routeId).None?
    ensures Summary(row) in ListRoutes(rows, excludeSchool)
  {
    if excludeSchool {
      ListedIffNotSchool(rows, row);
    } else {
      NothingDroppedWithoutExclusion(rows);
      var i :| 0 <= i < |rows| && rows[i] == row;
      assert ListRoutes(rows, false)[i] == Summary(row);
    }
  }

  /** The digit run at the front of `digits + rest`, when `rest` does not go on with a digit. */
  lemma {:induction false} DigitRunOfDigits(digits: string, rest: string)
    requires AllDigits(digits)
    requires rest == [] || !IsDigit(rest[0])
    ensures DigitRun(digits + rest) == digits
  {
    if digits != [] {
      assert (digits + rest)[1..] == digits[1..] + rest;
      DigitRunOfDigits(digits[1..], rest);
    }
  }

  /** Digits followed by no further digit read as the value of those digits. */
  lemma ParseDigits(digits: string, rest: string)
    requires digits != [] && AllDigits(digits)
    requires rest == [] || !IsDigit(rest[0])
    ensures ParseInt10(digits + rest) == Some(DigitsValue(digits))
  {
    var s := digits + rest;
    assert s[0] == digits[0];
    StartsWithDigit(s);
    DigitRunOfDigits(digits, rest);
  }

  /** A text that starts with a digit has no white space or sign to skip. */
  lemma StartsWithDigit(s: string)
    requires s != [] && IsDigit(s[0])
    ensures TrimStart(s) == s && AfterSign(s) == s
  {
  }

  /** A route id that starts with the decimal text of `n` and goes on with no digit reads as `n`. */
  lemma LeadingNumber(n: nat, rest: string)
    requires rest == [] || !IsDigit(rest[0])
    ensures ParseInt10(NatToString(n) + rest) == Some(n)
  {
    ParseDigits(NatToString(n), rest);
    NatToStringRoundTrip(n);
  }

  /** White space in front of a text that does not start with white space is all trimmed. */
  lemma {:induction false} TrimLeadingSpace(ws: string, t: string)
    requires forall i | 0 <= i < |ws| :: IsSpace(ws[i])
    requires t == [] || !IsSpace(t[0])
    ensures TrimStart(ws + t) == t
  {
    if ws != [] {
      assert (ws + t)[0] == ws[0];
      assert (ws + t)[1..] == ws[1..] + t;
      TrimLeadingSpace(ws[1..], t);
    }
  }

  /**
   * White space, an optional sign, a run of digits and a text that does
   * not go on with a digit read as the value of the digits, negated after
   * a minus sign.
   */
  lemma ParseSignedDigits(ws: string, sign: string, digits: string, rest: string)
    requires forall i | 0 <= i < |ws| :: IsSpace(ws[i])
    requires sign == "" || sign == "+" || sign == "-"
    requires digits != [] && AllDigits(digits)
    requires rest == [] || !IsDigit(rest[0])
    ensures ParseInt10(ws + sign + digits + rest)
      == Some(if sign == "-" then 0 - DigitsValue(digits) as int else DigitsValue(digits) as int)
  {
    var t := sign + digits + rest;
    assert ws + sign + digits + rest == ws + t;
    SignedDigitsStart(sign, digits, rest);
    TrimLeadingSpace(ws, t);
    ReadSignedDigits(sign, digits, rest);
  }

  /** A sign or a digit is not white space, and the sign is all that `AfterSign` drops. */
  lemma SignedDigitsStart(sign: string, digits: string, rest: string)
    requires sign == "" || sign == "+" || sign == "-"
    requires digits != [] && AllDigits(digits)
    ensures var t := sign + digits + rest;
      t != [] && !IsSpace(t[0]) && AfterSign(t) == digits + rest
      && (t[0] == '-' <==> sign == "-")
  {
    var t := sign + digits + rest;
    assert t[0] == if sign == "" then digits[0] else sign[0];
    if sign != "" {
      assert t[1..] == digits + rest;
    }
  }

  /** An optional sign, digits and no further digit read as the signed value of the digits. */
  lemma ReadSignedDigits(sign: string, digits: string, rest: string)
    requires sign == "" || sign == "+" || sign == "-"
    requires digits != [] && AllDigits(digits)
    requires rest == [] || !IsDigit(rest[0])
    ensures ReadSignedInteger(sign + digits + rest)
      == Some(if sign == "-" then 0 - DigitsValue(digits) as int else DigitsValue(digits) as int)
  {
    var t := sign + digits + rest;
    SignedDigitsStart(sign, digits, rest);
    DigitRunOfDigits(digits, rest);
    assert DigitRun(AfterSign(t)) == digits;
    var m: int := DigitsValue(digits);
    assert ReadSignedInteger(t) == if t[0] == '-' then Some(-m) else Some(m);
  }

  /**
   * A route id made of optional white space and sign, a number and a
   * suffix that does not start with a digit (" 601", "+650A", "-601",
   * "61") is a school route exactly when there is no minus sign and the
   * number is in the 600s.
   */
  lemma SchoolRouteByNumber(ws: string, sign: string, n: nat, rest: string)
    requires forall i | 0 <= i < |ws| :: IsSpace(ws[i])
    requires sign == "" || sign == "+" || sign == "-"
    requires rest == [] || !IsDigit(rest[0])
    ensures IsSchoolRoute(ws + sign + NatToString(n) + rest) <==> sign != "-" && 600 <= n < 700
  {
    ParseSignedDigits(ws, sign, NatToString(n), rest);
    NatToStringRoundTrip(n);
  }
}
