/** The sidebar's CSS width values (atoms/sidebar/sidebar.tsx): the length
    parser behind `setSidebarWidth`, the [12rem, 32rem] clamp, and the width
    read back from the cookie when a provider mounts. */
module SidebarWidth {
  import opened Common

  datatype Unit = Rem | Px | Em

  function UnitText(u: Unit): string
  {
    match u
    case Rem => "rem"
    case Px => "px"
    case Em => "em"
  }

  function UnitOf(s: string): (r: Option<Unit>)
    ensures r.Some? ==> UnitText(r.value) == s
  {
    if s == "rem" then Some(Rem)
    else if s == "px" then Some(Px)
    else if s == "em" then Some(Em)
    else None
  }

  predicate IsDigit(c: char) { '0' <= c <= '9' }

  predicate AllDigits(s: string) { forall i :: 0 <= i < |s| ==> IsDigit(s[i]) }

  /** What the pattern `^(\d+(?:\.\d+)?)(rem|px|em)$` captures: the digits
      before the point, the digits after it ("" when there is no point) and
      the unit. */
  datatype LengthMatch = LengthMatch(whole: string, fraction: string, unit: Unit)

  predicate WellFormed(m: LengthMatch)
  {
    |m.whole| > 0 && AllDigits(m.whole) && AllDigits(m.fraction)
  }

  function NumberText(m: LengthMatch): string
  {
    m.whole + (if m.fraction == "" then "" else "." + m.fraction)
  }

  /** The text a match was read from. */
  function Render(m: LengthMatch): string
  {
    NumberText(m) + UnitText(m.unit)
  }

  predicate IsNumberChar(c: char) { IsDigit(c) || c == '.' }

  /** Length of the longest prefix made of digits and points. */
  function NumberPrefixLength(s: string): (k: nat)
    ensures k <= |s|
    ensures forall i :: 0 <= i < k ==> IsNumberChar(s[i])
    ensures k < |s| ==> !IsNumberChar(s[k])
  {
    if |s| == 0 || !IsNumberChar(s[0]) then 0 else 1 + NumberPrefixLength(s[1..])
  }

  /** Reads `\d+(\.\d+)?` from the whole of `num`. */
  function ParseNumber(num: string): Option<(string, string)>
  {
    var k := IndexOfChar(num, '.');
    var whole := num[..k];
    if |whole| == 0 || !AllDigits(whole) then None
    else if k == |num| then Some((whole, ""))
    else
      var fraction := num[k + 1..];
      if |fraction| == 0 || !AllDigits(fraction) then None
      else Some((whole, fraction))
  }

  /** The regular-expression match of `parseWidth`, `None` when the text does
      not have the shape `<digits>[.<digits>](rem|px|em)`. The number part is
      necessarily the longest prefix of digits and points, because every unit
      starts with a letter. */
  function ParseLength(s: string): Option<LengthMatch>
  {
    var k := NumberPrefixLength(s);
    match UnitOf(s[k..])
    case None => None
    case Some(u) =>
      match ParseNumber(s[..k])
      case None => None
      case Some(parts) => Some(LengthMatch(parts.0, parts.1, u))
  }

  /** Every match is well formed and is the text it was read from. */
  lemma ParseLengthSound(s: string)
    requires ParseLength(s).Some?
    ensures WellFormed(ParseLength(s).value)
    ensures Render(ParseLength(s).value) == s
  {
    var k := NumberPrefixLength(s);
    var num := s[..k];
    var m := ParseLength(s).value;
    var d := IndexOfChar(num, '.');
    if d == |num| {
      assert m.whole == num && m.fraction == "";
    } else {
      assert num == num[..d] + "." + num[d + 1..];
      assert NumberText(m) == num;
    }
    assert s == s[..k] + s[k..];
  }

  lemma {:induction false} NumberPrefixOfConcat(a: string, b: string)
    requires forall i :: 0 <= i < |a| ==> IsNumberChar(a[i])
    requires |b| > 0 && !IsNumberChar(b[0])
    ensures NumberPrefixLength(a + b) == |a|
    decreases |a|
  {
    if |a| > 0 {
      assert (a + b)[1..] == a[1..] + b;
      NumberPrefixOfConcat(a[1..], b);
    } else {
      assert a + b == b;
    }
  }

  /** Every well-formed length is read back exactly from its text. Together
      with ParseLengthSound: a text matches iff it is `Render(m)` for a
      well-formed `m`. */
  lemma ParseLengthComplete(m: LengthMatch)
    requires WellFormed(m)
    ensures ParseLength(Render(m)) == Some(m)
  {
    var num := NumberText(m);
    var s := Render(m);
    var u := UnitText(m.unit);
    assert forall i :: 0 <= i < |num| ==> IsNumberChar(num[i]);
    NumberPrefixOfConcat(num, u);
    assert s[..|num|] == num && s[|num|..] == u;
    assert forall i :: 0 <= i < |m.whole| ==> m.whole[i] != '.';
    if m.fraction == "" {
      IndexOfCharConcat(m.whole, "", '.');
      assert m.whole + "" == m.whole;
    } else {
      IndexOfCharConcat(m.whole, "." + m.fraction, '.');
      assert num[|m.whole| + 1..] == m.fraction;
    }
  }

  lemma MatchStartsWithDigit(s: string)
    ensures ParseLength(s).Some? ==> |s| > 0 && IsDigit(s[0])
  {
    if ParseLength(s).Some? {
      ParseLengthSound(s);
      var m := ParseLength(s).value;
      assert Render(m)[0] == m.whole[0];
    }
  }

  /** A signed or empty text never matches. */
  lemma ParseRejectsSignedOrEmpty(s: string)
    requires s == "" || s[0] == '-' || s[0] == '+'
    ensures ParseLength(s).None?
  {
    MatchStartsWithDigit(s);
  }

  function DigitValue(c: char): nat requires IsDigit(c) { c as int - '0' as int }

  /** `parseFloat` of a run of digits. */
  function DigitsValue(d: string): nat
    requires AllDigits(d)
  {
    if |d| == 0 then 0 else 10 * DigitsValue(d[..|d| - 1]) + DigitValue(d[|d| - 1])
  }

  function Pow10(n: nat): (r: nat)
    ensures r >= 1
  {
    if n == 0 then 1 else 10 * Pow10(n - 1)
  }

  /** `parseFloat(match[1])`, as an exact decimal. */
  function Value(m: LengthMatch): real
    requires WellFormed(m)
  {
    DigitsValue(m.whole) as real + DigitsValue(m.fraction) as real / Pow10(|m.fraction|) as real
  }

  /** A width as the sidebar stores it. `Text(s)` is a string from outside
      (the default, a caller, the cookie); `RemValue(v)` is the string
      `${v}rem` that `setSidebarWidth` and the resizer build from a number. */
  datatype Width = Text(text: string) | RemValue(rem: real)

  /** JavaScript prints a number in plain decimal notation exactly when it is
      0 or between 1e-6 (inclusive) and 1e21 (exclusive); negative numbers
      print with a sign and larger or smaller ones with an exponent, and
      neither matches the pattern. */
  predicate PrintsPlain(v: real)
  {
    v == 0.0 || (0.000001 <= v && v < 1000000000000000000000.0)
  }

  datatype Measure = Measure(amount: real, unit: Unit)

  /** The number and unit the pattern finds in a width, if it matches. */
  function MeasureOf(w: Width): Option<Measure>
  {
    match w
    case Text(s) =>
      (match ParseLength(s)
       case None => None
       case Some(m) =>
         ParseLengthSound(s);
         Some(Measure(Value(m), m.unit)))
    case RemValue(v) => if PrintsPlain(v) then Some(Measure(v, Rem)) else None
  }

  const FallbackRem: real := 16.0

  /** `parseWidth` inside `setSidebarWidth`: px divided by 16, em and rem
      as they are, 16 when the text does not match. */
  function RemOf(w: Width): real
  {
    match MeasureOf(w)
    case None => FallbackRem
    case Some(ms) => if ms.unit == Px then ms.amount / 16.0 else ms.amount
  }

  /** The resizer's start width on mousedown: the number the pattern finds,
      whatever its unit, or 16. */
  function StartWidthOf(w: Width): real
  {
    match MeasureOf(w)
    case None => FallbackRem
    case Some(ms) => ms.amount
  }

  lemma RemOfPx(m: LengthMatch)
    requires WellFormed(m) && m.unit == Px
    ensures RemOf(Text(Render(m))) == Value(m) / 16.0
    ensures StartWidthOf(Text(Render(m))) == Value(m)
  {
    ParseLengthComplete(m);
  }

  lemma RemOfRemOrEm(m: LengthMatch)
    requires WellFormed(m) && m.unit != Px
    ensures RemOf(Text(Render(m))) == Value(m)
    ensures StartWidthOf(Text(Render(m))) == Value(m)
  {
    ParseLengthComplete(m);
  }

  /** A text that does not match, negatives and "" included, reads as 16. */
  lemma RemOfUnmatched(s: string)
    requires ParseLength(s).None? || s == "" || s[0] == '-'
    ensures RemOf(Text(s)) == 16.0
    ensures StartWidthOf(Text(s)) == 16.0
  {
    if s == "" || s[0] == '-' { ParseRejectsSignedOrEmpty(s); }
  }

  const DefaultSidebarWidth: string := "16rem"
  const MinSidebarWidth: string := "12rem"
  const MaxSidebarWidth: string := "32rem"

  /** A whole number of rem reads as that number. */
  lemma WholeRemValue(d: string)
    requires |d| > 0 && AllDigits(d)
    ensures RemOf(Text(Render(LengthMatch(d, "", Rem)))) == DigitsValue(d) as real
    ensures StartWidthOf(Text(Render(LengthMatch(d, "", Rem)))) == DigitsValue(d) as real
  {
    var m := LengthMatch(d, "", Rem);
    assert DigitsValue(m.fraction) == 0 && Pow10(|m.fraction|) == 1;
    assert Value(m) == DigitsValue(d) as real;
    RemOfRemOrEm(m);
  }

  lemma TwoDigitValue(d: string)
    requires |d| == 2 && AllDigits(d)
    ensures DigitsValue(d) == 10 * DigitValue(d[0]) + DigitValue(d[1])
  {
    var h := d[..1];
    assert h[..0] == "" && h[0] == d[0];
    assert DigitsValue(h) == 10 * DigitsValue(h[..0]) + DigitValue(h[0]);
    assert DigitsValue(d) == 10 * DigitsValue(h) + DigitValue(d[1]);
  }

  lemma WidthConstants()
    ensures RemOf(Text(MinSidebarWidth)) == 12.0
    ensures RemOf(Text(MaxSidebarWidth)) == 32.0
    ensures RemOf(Text(DefaultSidebarWidth)) == 16.0
    ensures StartWidthOf(Text(DefaultSidebarWidth)) == 16.0
  {
    assert Render(LengthMatch("12", "", Rem)) == MinSidebarWidth;
    assert Render(LengthMatch("32", "", Rem)) == MaxSidebarWidth;
    assert Render(LengthMatch("16", "", Rem)) == DefaultSidebarWidth;
    TwoDigitValue("12");
    TwoDigitValue("32");
    TwoDigitValue("16");
    WholeRemValue("12");
    WholeRemValue("32");
    WholeRemValue("16");
  }

  /** `Math.max(12, Math.min(32, v))`, as the resizer writes it. */
  function ClampRem(v: real): (r: real)
    ensures 12.0 <= r <= 32.0
    ensures 12.0 <= v <= 32.0 ==> r == v
    ensures v < 12.0 ==> r == 12.0
    ensures v > 32.0 ==> r == 32.0
  {
    if v < 12.0 then 12.0 else if v > 32.0 then 32.0 else v
  }

  /** The width `setSidebarWidth(w)` stores: the value of `w` in rem,
      clamped between the values of the two bound constants, printed in rem. */
  function StoredWidth(w: Width): Width
  {
    var lo := RemOf(Text(MinSidebarWidth));
    var hi := RemOf(Text(MaxSidebarWidth));
    var v := RemOf(w);
    RemValue(if lo > (if hi < v then hi else v) then lo else (if hi < v then hi else v))
  }

  /** Every stored width is in rem, with a value in [12, 32]: the clamp of
      the value read from the argument. The unit of the argument is not kept. */
  lemma StoredWidthClamped(w: Width)
    ensures StoredWidth(w).RemValue?
    ensures 12.0 <= StoredWidth(w).rem <= 32.0
    ensures StoredWidth(w) == RemValue(ClampRem(RemOf(w)))
  {
    WidthConstants();
  }

  /** Storing a stored width again changes nothing. */
  lemma StoredWidthIdempotent(w: Width)
    ensures StoredWidth(StoredWidth(w)) == StoredWidth(w)
  {
    StoredWidthClamped(w);
    StoredWidthClamped(StoredWidth(w));
  }

  /** A width already in rem and in range is stored as it is, so the string
      the resizer hands to `setSidebarWidth` comes back unchanged. */
  lemma StoredWidthKeepsInRange(v: real)
    requires 12.0 <= v <= 32.0
    ensures RemOf(RemValue(v)) == v && StartWidthOf(RemValue(v)) == v
    ensures StoredWidth(RemValue(v)) == RemValue(v)
  {
    StoredWidthClamped(RemValue(v));
  }

  // ----- The width cookie read on mount -----

  const WidthCookieName: string := "sidebar_width"

  function CookieKey(id: string): string { WidthCookieName + "_" + id }

  /** `rows.find(row => row.startsWith(prefix))`, as an index: |rows| when
      no row has the prefix. */
  function FirstRowWithPrefix(rows: seq<string>, prefix: string): (k: nat)
    ensures k <= |rows|
    ensures k < |rows| ==> prefix <= rows[k]
    ensures forall j :: 0 <= j < k ==> !(prefix <= rows[j])
  {
    if |rows| == 0 then 0
    else if prefix <= rows[0] then 0
    else 1 + FirstRowWithPrefix(rows[1..], prefix)
  }

  /** The value part of a cookie row: `row.split('=')[1]`, kept only when it
      is a non-empty string. */
  function RowValue(row: string): Option<string>
  {
    var parts := Split(row, "=");
    if |parts| >= 2 && parts[1] != "" then Some(parts[1]) else None
  }

  /** The width found in `document.cookie` on mount, as the source reads it:
      the first `; `-separated row that STARTS WITH `sidebar_width_<id>`. */
  function SavedWidth(cookie: string, id: string): Option<string>
  {
    var rows := Split(cookie, "; ");
    var k := FirstRowWithPrefix(rows, CookieKey(id));
    if k == |rows| then None else RowValue(rows[k])
  }

  /** The same read with the row's key compared in full: the row must start
      with `sidebar_width_<id>=`. */
  function SavedWidthExact(cookie: string, id: string): Option<string>
  {
    var rows := Split(cookie, "; ");
    var k := FirstRowWithPrefix(rows, CookieKey(id) + "=");
    if k == |rows| then None else RowValue(rows[k])
  }

  /** A cookie holding a single row `key=value` gives `value`. */
  lemma SingleRowValue(key: string, value: string)
    requires ';' !in key + "=" + value
    requires '=' !in key && '=' !in value && value != ""
    ensures Split(key + "=" + value, "; ") == [key + "=" + value]
    ensures RowValue(key + "=" + value) == Some(value)
  {
    SplitWithoutSeparator(key + "=" + value, "; ");
    SplitAtFirst(key, '=', value);
    SplitWithoutSeparator(value, "=");
  }

  /** The prefix test lets a sidebar read the row written by any sidebar
      whose id extends its own (the sidebar "a" reads the row of "ab"); the
      full-key read does not. */
  lemma PrefixRowMatchesOtherSidebar(id: string, suffix: string, value: string)
    requires suffix != "" && value != ""
    requires ';' !in id && ';' !in suffix && ';' !in value
    requires '=' !in id && '=' !in suffix && '=' !in value
    ensures id + suffix != id
    ensures SavedWidth(CookieKey(id + suffix) + "=" + value, id) == Some(value)
    ensures SavedWidthExact(CookieKey(id + suffix) + "=" + value, id) == None
  {
    var key := CookieKey(id + suffix);
    var row := key + "=" + value;
    assert ';' !in WidthCookieName + "_" && '=' !in WidthCookieName + "_";
    assert key == CookieKey(id) + suffix;
    assert forall c :: c in key ==> c in WidthCookieName + "_" || c in id || c in suffix;
    SingleRowValue(key, value);
    assert CookieKey(id) <= row;
    var n := |CookieKey(id)|;
    assert row[n] == suffix[0] != '=';
    assert (CookieKey(id) + "=")[n] == '=';
    assert !(CookieKey(id) + "=" <= row);
  }

  /** Under full-key matching the id is the text between `sidebar_width_`
      and the row's first '='. */
  lemma ExactRowKeyDeterminesId(row: string, id: string)
    requires '=' !in id
    requires CookieKey(id) + "=" <= row
    ensures var n := |WidthCookieName + "_"|;
      n <= |row| && id == row[n..][..IndexOfChar(row[n..], '=')]
  {
    var n := |WidthCookieName + "_"|;
    var tail := row[n..];
    assert tail == id + tail[|id|..];
    assert tail[|id|] == (CookieKey(id) + "=")[n + |id|] == '=';
    IndexOfCharConcat(id, tail[|id|..], '=');
  }

  /** Under full-key matching two ids (without '=') never read the same row. */
  lemma ExactRowKeyUnique(row: string, a: string, b: string)
    requires '=' !in a && '=' !in b
    requires CookieKey(a) + "=" <= row && CookieKey(b) + "=" <= row
    ensures a == b
  {
    ExactRowKeyDeterminesId(row, a);
    ExactRowKeyDeterminesId(row, b);
  }

  /** The width the mount effect leaves: the value found by the prefix read,
      assigned as it is (neither parsed nor clamped), or the current width
      when nothing non-empty was found. */
  function HydratedWidth(current: Width, cookie: string, id: string): (w: Width)
    ensures SavedWidth(cookie, id).Some? ==> w == Text(SavedWidth(cookie, id).value)
    ensures SavedWidth(cookie, id).None? ==> w == current
  {
    match SavedWidth(cookie, id)
    case Some(v) => Text(v)
    case None => current
  }

  /** The mount effect with the row's key compared in full. */
  function HydratedWidthExact(current: Width, cookie: string, id: string): (w: Width)
    ensures SavedWidthExact(cookie, id).Some? ==> w == Text(SavedWidthExact(cookie, id).value)
    ensures SavedWidthExact(cookie, id).None? ==> w == current
  {
    match SavedWidthExact(cookie, id)
    case Some(v) => Text(v)
    case None => current
  }

  /** A width row written under the sidebar's own key is adopted as it is,
      by either read. */
  lemma HydrationAdoptsRow(current: Width, id: string, value: string)
    requires value != ""
    requires ';' !in id && ';' !in value && '=' !in id && '=' !in value
    ensures HydratedWidth(current, CookieKey(id) + "=" + value, id) == Text(value)
    ensures HydratedWidthExact(current, CookieKey(id) + "=" + value, id) == Text(value)
  {
    var key := CookieKey(id);
    assert ';' !in WidthCookieName + "_" && '=' !in WidthCookieName + "_";
    assert forall c :: c in key ==> c in WidthCookieName + "_" || c in id;
    SingleRowValue(key, value);
    assert key <= key + "=" + value;
  }

  /** On mount, sidebar `id` adopts the width saved by sidebar `id + suffix`
      when that is the only row; with the key compared in full it keeps its
      width. */
  lemma HydrationCrossesSidebars(current: Width, id: string, suffix: string, value: string)
    requires suffix != "" && value != ""
    requires ';' !in id && ';' !in suffix && ';' !in value
    requires '=' !in id && '=' !in suffix && '=' !in value
    ensures HydratedWidth(current, CookieKey(id + suffix) + "=" + value, id) == Text(value)
    ensures HydratedWidthExact(current, CookieKey(id + suffix) + "=" + value, id) == current
  {
    PrefixRowMatchesOtherSidebar(id, suffix, value);
  }

  /** Hydration can bring in a width that the clamp would have refused:
      the row `sidebar_width_<id>=100rem` sets a width of 100 rem. */
  lemma HydrationIsUnclamped(current: Width, id: string)
    requires ';' !in id && '=' !in id
    ensures RemOf(HydratedWidth(current, CookieKey(id) + "=" + "100rem", id)) == 100.0
    ensures 100.0 > RemOf(Text(MaxSidebarWidth))
  {
    var m := LengthMatch("100", "", Rem);
    assert Render(m) == "100rem";
    assert ';' !in Render(m) && '=' !in Render(m);
    HydrationAdoptsRow(current, id, Render(m));
    assert DigitsValue("100") == 100 by {
      var t := "100"[..2];
      assert t == "10" && t[..1] == "1" && "1"[..0] == "";
      assert DigitsValue("1") == 1;
      assert DigitsValue(t) == 10;
    }
    WholeRemValue("100");
    WidthConstants();
  }
}
