/**
 * Freshness labels of search results: Google shows how long ago an item was
 * published as "<digits> <unit> ago". This module models the regular
 * expressions the scraper applies to such labels:
 *  - `parse_released_time`, which turns a label into a sortable key, and
 *  - the extraction of the first label from a result's description and the
 *    pluralisation of its unit, done when a search element is scraped.
 * Digits are the ASCII digits and word characters (for `\b`) are ASCII
 * letters, digits and the underscore.
 */
module Freshness {
  import opened Wrappers
  import opened Sequences

  datatype Unit = Second | Minute | Hour

  function UnitName(u: Unit): string {
    match u
    case Second => "second"
    case Minute => "minute"
    case Hour => "hour"
  }

  /** The rank `parse_released_time` gives a unit; singular and plural share it. */
  function Rank(u: Unit): nat {
    match u
    case Second => 1
    case Minute => 2
    case Hour => 3
  }

  /** A label "<digits> <unit>[s] ago" as the regular expression splits it. */
  datatype Label = Label(digits: string, unit: Unit, plural: bool)

  predicate IsDigit(c: char) {
    '0' <= c <= '9'
  }

  predicate AllDigits(s: string) {
    forall i :: 0 <= i < |s| ==> IsDigit(s[i])
  }

  /** What `\d+` accepts. */
  predicate ValidLabel(l: Label) {
    |l.digits| > 0 && AllDigits(l.digits)
  }

  function UnitText(u: Unit, plural: bool): string {
    UnitName(u) + (if plural then "s" else "")
  }

  /** What follows the digits: " <unit>[s] ago". */
  function TailText(u: Unit, plural: bool): string {
    " " + UnitText(u, plural) + " ago"
  }

  function LabelText(l: Label): string {
    l.digits + TailText(l.unit, l.plural)
  }

  /** The length of the longest run of digits at the start of `s` (greedy `\d+`). */
  function DigitRun(s: string): (n: nat)
    ensures n <= |s|
    ensures forall i :: 0 <= i < n ==> IsDigit(s[i])
    ensures n < |s| ==> !IsDigit(s[n])
  {
    if |s| > 0 && IsDigit(s[0]) then 1 + DigitRun(s[1..]) else 0
  }

  /**
   * The unit alternatives `(seconds?|minutes?|hours?)` followed by " ago",
   * in the order the regular expression tries them: the greedy `s?` first
   * attempts the plural.
   */
  const TailOrder: seq<(Unit, bool)> :=
    [(Second, true), (Second, false), (Minute, true), (Minute, false), (Hour, true), (Hour, false)]

  /** The first of `alts` whose text starts `rest`. */
  function FirstTail(rest: string, alts: seq<(Unit, bool)>): (r: Option<(Unit, bool)>)
    ensures r.Some? ==> r.value in alts && TailText(r.value.0, r.value.1) <= rest
  {
    if alts == [] then None
    else if TailText(alts[0].0, alts[0].1) <= rest then Some(alts[0])
    else FirstTail(rest, alts[1..])
  }

  /** What follows the digits of a label, as `(unit, plural)`. */
  function MatchTail(rest: string): (r: Option<(Unit, bool)>)
    ensures r.Some? ==> TailText(r.value.0, r.value.1) <= rest
  {
    FirstTail(rest, TailOrder)
  }

  /**
   * `re.match(r"(\d+) (seconds?|minutes?|hours?) ago", s)`: a label at the
   * very start of `s`. Backtracking `\d+` to fewer digits cannot help, since
   * the next character would then be a digit, not the space, so only the
   * longest digit run is tried.
   */
  function MatchLabel(s: string): (r: Option<Label>)
    ensures r.Some? ==> ValidLabel(r.value) && LabelText(r.value) <= s
  {
    var n := DigitRun(s);
    if n == 0 then None
    else
      match MatchTail(s[n..])
      case None => None
      case Some((u, p)) =>
        assert s == s[..n] + s[n..];
        Some(Label(s[..n], u, p))
  }

  function DigitValue(c: char): nat
    requires IsDigit(c)
  {
    c as int - '0' as int
  }

  /** Python's `int(digits)` on ASCII digits (leading zeros allowed). */
  function NumeralValue(s: string): nat
    requires AllDigits(s)
  {
    if s == [] then 0 else NumeralValue(s[..|s| - 1]) * 10 + DigitValue(s[|s| - 1])
  }

  /** The key `parse_released_time` returns; `Unranked` stands for `(inf, inf)`. */
  datatype ReleaseKey = Key(rank: nat, value: nat) | Unranked

  /** Python's `<` on the returned tuples (lexicographic, with `inf` above every integer). */
  predicate Before(a: ReleaseKey, b: ReleaseKey) {
    match (a, b)
    case (Key(r1, v1), Key(r2, v2)) => r1 < r2 || (r1 == r2 && v1 < v2)
    case (Key(_, _), Unranked) => true
    case (Unranked, _) => false
  }

  /** Tuple `<` on keys is a strict total order: sorting by it is well defined. */
  lemma BeforeIsStrictTotalOrder(a: ReleaseKey, b: ReleaseKey, c: ReleaseKey)
    ensures !Before(a, a)
    ensures Before(a, b) && Before(b, c) ==> Before(a, c)
    ensures a != b ==> Before(a, b) || Before(b, a)
  {
  }

  /**
   * `parse_released_time`: `None` stands for any value that is not a string
   * (the scraper's `None`, pandas' NaN).
   */
  function ParseReleasedTime(released: Option<string>): (k: ReleaseKey)
    ensures released.None? ==> k == Unranked
    ensures k.Key? ==> 1 <= k.rank <= 3
  {
    match released
    case None => Unranked
    case Some(s) =>
      match MatchLabel(s)
      case None => Unranked
      case Some(l) => Key(Rank(l.unit), NumeralValue(l.digits))
  }

  // ---------------------------------------------------------------------
  // Recognising labels

  lemma {:induction false} DigitRunOfNumeral(d: string, t: string)
    requires AllDigits(d)
    requires t == [] || !IsDigit(t[0])
    ensures DigitRun(d + t) == |d|
    decreases |d|
  {
    if d != [] {
      assert (d + t)[1..] == d[1..] + t;
      DigitRunOfNumeral(d[1..], t);
    }
  }

  /** The alternative at index `k` is taken when it matches and none before it does. */
  lemma {:induction false} FirstTailPicks(rest: string, alts: seq<(Unit, bool)>, k: nat)
    requires k < |alts| && TailText(alts[k].0, alts[k].1) <= rest
    requires forall j :: 0 <= j < k ==> !(TailText(alts[j].0, alts[j].1) <= rest)
    ensures FirstTail(rest, alts) == Some(alts[k])
  {
    if k > 0 {
      assert forall j :: 0 <= j < k - 1 ==> alts[1..][j] == alts[j + 1];
      FirstTailPicks(rest, alts[1..], k - 1);
    }
  }

  /** The text of one alternative never starts a string that starts with another's. */
  lemma TailsDiffer(u1: Unit, p1: bool, u2: Unit, p2: bool, t: string)
    requires (u1, p1) != (u2, p2)
    ensures !(TailText(u1, p1) <= TailText(u2, p2) + t)
  {
    var a, b := TailText(u1, p1), TailText(u2, p2) + t;
    if u1 != u2 {
      assert a[1] == UnitName(u1)[0] != UnitName(u2)[0] == b[1];
    } else {
      // The same unit: the plural has an "s" where the singular has the space before "ago".
      var n := |UnitName(u1)| + 1;
      assert a[n] == (if p1 then 's' else ' ');
      assert b[n] == (if p2 then 's' else ' ');
    }
  }

  lemma MatchTailOfText(u: Unit, p: bool, t: string)
    ensures MatchTail(TailText(u, p) + t) == Some((u, p))
  {
    var rest := TailText(u, p) + t;
    assert (u, p) in TailOrder;
    var k := IndexOf(TailOrder, (u, p));
    forall j | 0 <= j < k
      ensures !(TailText(TailOrder[j].0, TailOrder[j].1) <= rest)
    {
      assert TailOrder[j] == TailOrder[..k][j];
      TailsDiffer(TailOrder[j].0, TailOrder[j].1, u, p, t);
    }
    FirstTailPicks(rest, TailOrder, k);
  }

  /** A valid label at the start of a string is recognised, whatever follows it. */
  lemma MatchLabelOfText(l: Label, t: string)
    requires ValidLabel(l)
    ensures MatchLabel(LabelText(l) + t) == Some(l)
  {
    var s := LabelText(l) + t;
    var tail := TailText(l.unit, l.plural) + t;
    assert s == l.digits + tail;
    DigitRunOfNumeral(l.digits, tail);
    assert s[..|l.digits|] == l.digits;
    assert s[|l.digits|..] == tail;
    MatchTailOfText(l.unit, l.plural, t);
  }

  /** A string starting with a valid label parses to the unit's rank and the digits' value. */
  lemma ParseValidLabel(l: Label, t: string)
    requires ValidLabel(l)
    ensures ParseReleasedTime(Some(LabelText(l) + t)) == Key(Rank(l.unit), NumeralValue(l.digits))
  {
    MatchLabelOfText(l, t);
  }

  /** The sentinel is returned exactly when no valid label starts the string. */
  lemma ParseUnrankedIff(s: string)
    ensures ParseReleasedTime(Some(s)) == Unranked
            <==> forall l :: ValidLabel(l) ==> !(LabelText(l) <= s)
  {
    if exists l :: ValidLabel(l) && LabelText(l) <= s {
      var l :| ValidLabel(l) && LabelText(l) <= s;
      assert s == LabelText(l) + s[|LabelText(l)|..];
      ParseValidLabel(l, s[|LabelText(l)|..]);
    }
  }

  // ---------------------------------------------------------------------
  // The order of keys

  /** Every label sorts before every string that is not a label, and before `None`. */
  lemma LabelBeforeUnranked(l: Label, t: string, other: Option<string>)
    requires ValidLabel(l)
    requires ParseReleasedTime(other) == Unranked
    ensures Before(ParseReleasedTime(Some(LabelText(l) + t)), ParseReleasedTime(other))
    ensures !Before(ParseReleasedTime(other), ParseReleasedTime(Some(LabelText(l) + t)))
  {
    ParseValidLabel(l, t);
  }

  /** Seconds sort before minutes and minutes before hours, whatever the numbers. */
  lemma CoarserUnitSortsLater(l1: Label, t1: string, l2: Label, t2: string)
    requires ValidLabel(l1) && ValidLabel(l2)
    requires Rank(l1.unit) < Rank(l2.unit)
    ensures Before(ParseReleasedTime(Some(LabelText(l1) + t1)), ParseReleasedTime(Some(LabelText(l2) + t2)))
  {
    ParseValidLabel(l1, t1);
    ParseValidLabel(l2, t2);
  }

  /** Within one unit, labels sort by their number. */
  lemma SameUnitSortsByValue(l1: Label, t1: string, l2: Label, t2: string)
    requires ValidLabel(l1) && ValidLabel(l2)
    requires l1.unit == l2.unit
    ensures Before(ParseReleasedTime(Some(LabelText(l1) + t1)), ParseReleasedTime(Some(LabelText(l2) + t2)))
            <==> NumeralValue(l1.digits) < NumeralValue(l2.digits)
  {
    ParseValidLabel(l1, t1);
    ParseValidLabel(l2, t2);
  }

  /** "5 seconds ago" < "2 minutes ago" < "1 hour ago" < "garbage", and None ranks as "garbage". */
  lemma FreshnessExamples()
    ensures Before(ParseReleasedTime(Some("5 seconds ago")), ParseReleasedTime(Some("2 minutes ago")))
    ensures Before(ParseReleasedTime(Some("2 minutes ago")), ParseReleasedTime(Some("1 hour ago")))
    ensures Before(ParseReleasedTime(Some("1 hour ago")), ParseReleasedTime(Some("garbage")))
    ensures ParseReleasedTime(None) == ParseReleasedTime(Some("garbage"))
  {
    SecondsBeforeMinutes();
    MinutesBeforeHours();
    HourBeforeGarbage();
  }

  lemma SecondsBeforeMinutes()
    ensures Before(ParseReleasedTime(Some("5 seconds ago")), ParseReleasedTime(Some("2 minutes ago")))
  {
    var a := Label("5", Second, true);
    var b := Label("2", Minute, true);
    assert LabelText(a) + "" == "5 seconds ago";
    assert LabelText(b) + "" == "2 minutes ago";
    CoarserUnitSortsLater(a, "", b, "");
  }

  lemma MinutesBeforeHours()
    ensures Before(ParseReleasedTime(Some("2 minutes ago")), ParseReleasedTime(Some("1 hour ago")))
  {
    var b := Label("2", Minute, true);
    var c := Label("1", Hour, false);
    assert LabelText(b) + "" == "2 minutes ago";
    assert LabelText(c) + "" == "1 hour ago";
    CoarserUnitSortsLater(b, "", c, "");
  }

  lemma HourBeforeGarbage()
    ensures Before(ParseReleasedTime(Some("1 hour ago")), ParseReleasedTime(Some("garbage")))
    ensures ParseReleasedTime(None) == ParseReleasedTime(Some("garbage"))
  {
    var c := Label("1", Hour, false);
    assert LabelText(c) + "" == "1 hour ago";
    assert DigitRun("garbage") == 0;
    LabelBeforeUnranked(c, "", Some("garbage"));
  }

  // ---------------------------------------------------------------------
  // Finding the first label in a description: `re.search`

  /** No label starts at any position from `i` up to, but not including, `k`. */
  predicate NoLabelIn(s: string, i: nat, k: nat)
    requires i <= k <= |s|
    decreases k - i
  {
    i == k || (MatchLabel(s[i..]).None? && NoLabelIn(s, i + 1, k))
  }

  lemma {:induction false} NoLabelInMeans(s: string, i: nat, k: nat)
    requires i <= k <= |s|
    ensures NoLabelIn(s, i, k) <==> forall j :: i <= j < k ==> MatchLabel(s[j..]).None?
    decreases k - i
  {
    if i < k {
      NoLabelInMeans(s, i + 1, k);
    }
  }

  /**
   * The first position at or after `i` where a label starts. Starting a match
   * inside a run of digits is never earlier than at the run's start, so the
   * leftmost match of `re.search` is the first position where `MatchLabel`
   * succeeds.
   */
  function FirstLabelFrom(s: string, i: nat): (r: Option<nat>)
    requires i <= |s|
    ensures r.Some? ==> i <= r.value < |s| && MatchLabel(s[r.value..]).Some? && NoLabelIn(s, i, r.value)
    ensures r.None? ==> NoLabelIn(s, i, |s|)
    decreases |s| - i
  {
    if i == |s| then None
    else if MatchLabel(s[i..]).Some? then Some(i)
    else FirstLabelFrom(s, i + 1)
  }

  // ---------------------------------------------------------------------
  // Pluralising: every whole-word `hour`, `minute` or `second` gets an `s`

  /** `\w`, ASCII only. */
  predicate IsWordChar(c: char) {
    'a' <= c <= 'z' || 'A' <= c <= 'Z' || IsDigit(c) || c == '_'
  }

  /** `\b` at position `i`: a word character on exactly one side. */
  predicate WordBoundary(s: string, i: nat)
    requires i <= |s|
  {
    (i > 0 && IsWordChar(s[i - 1])) != (i < |s| && IsWordChar(s[i]))
  }

  /** `name` occurs in `s` at position `i`, compared character by character. */
  predicate NameAt(s: string, i: nat, name: string)
    decreases |name|
  {
    name == [] || (i < |s| && s[i] == name[0] && NameAt(s, i + 1, name[1..]))
  }

  lemma {:induction false} NameAtPrefix(s: string, i: nat, name: string)
    requires i <= |s|
    ensures NameAt(s, i, name) <==> name <= s[i..]
    decreases |name|
  {
    if name != [] && i < |s| {
      NameAtPrefix(s, i + 1, name[1..]);
      assert s[i..] == [s[i]] + s[i + 1..];
    }
  }

  /** `\b<unit>\b` at `i`. */
  predicate UnitWordAt(s: string, i: nat, u: Unit)
    requires i <= |s|
  {
    WordBoundary(s, i) && i + |UnitName(u)| <= |s| && NameAt(s, i, UnitName(u)) && WordBoundary(s, i + |UnitName(u)|)
  }

  /** The alternatives of `(hour|minute|second)`, in the order they are tried. */
  const WordOrder: seq<Unit> := [Hour, Minute, Second]

  /** The first of `units` matching as a whole word at `i`. */
  function FirstWord(s: string, i: nat, units: seq<Unit>): (r: Option<Unit>)
    requires i <= |s|
    ensures r.Some? ==> r.value in units && UnitWordAt(s, i, r.value)
  {
    if units == [] then None
    else if UnitWordAt(s, i, units[0]) then Some(units[0])
    else FirstWord(s, i, units[1..])
  }

  /** The alternative of `(hour|minute|second)` matching as a whole word at `i`. */
  function WordAt(s: string, i: nat): Option<Unit>
    requires i <= |s|
  {
    FirstWord(s, i, WordOrder)
  }

  lemma {:induction false} FirstWordNone(s: string, i: nat, units: seq<Unit>)
    requires i <= |s|
    requires forall u :: u in units ==> !UnitWordAt(s, i, u)
    ensures FirstWord(s, i, units).None?
    decreases |units|
  {
    if units != [] {
      FirstWordNone(s, i, units[1..]);
    }
  }

  /** When no other unit matches at `i`, the scan finds `u` exactly when `u` matches. */
  lemma {:induction false} FirstWordOnly(s: string, i: nat, units: seq<Unit>, u: Unit)
    requires i <= |s| && u in units
    requires forall v :: v in units && v != u ==> !UnitWordAt(s, i, v)
    ensures FirstWord(s, i, units) == if UnitWordAt(s, i, u) then Some(u) else None
    decreases |units|
  {
    if units[0] != u {
      FirstWordOnly(s, i, units[1..], u);
    } else if !UnitWordAt(s, i, u) {
      FirstWordNone(s, i, units[1..]);
    }
  }

  /** The substitution from position `i` on: matches are replaced left to right, without overlap. */
  function PluraliseFrom(s: string, i: nat): string
    requires i <= |s|
    decreases |s| - i
  {
    if i == |s| then []
    else
      match WordAt(s, i)
      case Some(u) => UnitName(u) + "s" + PluraliseFrom(s, i + |UnitName(u)|)
      case None => [s[i]] + PluraliseFrom(s, i + 1)
  }

  function Pluralise(s: string): string {
    PluraliseFrom(s, 0)
  }

  /** No unit word can start at `i` when the character there cannot begin one, or a word character precedes it. */
  predicate NoWordStart(s: string, i: nat)
    requires i < |s|
  {
    !(s[i] == 'h' || s[i] == 'm' || s[i] == 's') || (i > 0 && IsWordChar(s[i - 1]))
  }

  lemma NoWordStartMeansNone(s: string, i: nat)
    requires i < |s| && NoWordStart(s, i)
    ensures WordAt(s, i).None?
  {
    forall u | u in WordOrder
      ensures !UnitWordAt(s, i, u)
    {
      if NameAt(s, i, UnitName(u)) {
        assert s[i] == UnitName(u)[0];
      }
    }
    FirstWordNone(s, i, WordOrder);
  }

  /** Positions where nothing matches are copied unchanged. */
  lemma PluraliseCopies(s: string, i: nat, k: nat)
    requires i <= k <= |s|
    requires forall j :: i <= j < k ==> WordAt(s, j).None?
    ensures PluraliseFrom(s, i) == s[i..k] + PluraliseFrom(s, k)
  {
    var f := (j: nat) => if j <= |s| then PluraliseFrom(s, j) else [];
    forall j | i <= j < k
      ensures f(j) == [s[j]] + f(j + 1)
    {
      PluraliseAtNone(s, j);
    }
    CopiesThrough(f, s, i, k);
  }

  /** A position where no unit word matches is copied and the scan moves on by one. */
  lemma PluraliseAtNone(s: string, i: nat)
    requires i < |s| && WordAt(s, i).None?
    ensures PluraliseFrom(s, i) == [s[i]] + PluraliseFrom(s, i + 1)
  {
  }

  /** Only the unit whose name starts the text at `w` can match there. */
  lemma OnlyOwnUnitAt(s: string, w: nat, u: Unit, v: Unit)
    requires NameAt(s, w, UnitName(u)) && NameAt(s, w, UnitName(v))
    ensures u == v
  {
    assert UnitName(u)[0] == s[w] == UnitName(v)[0];
  }

  /**
   * A unit name preceded by a non-word character matches at `w` exactly when
   * it is not followed by a word character.
   */
  lemma WordAtUnit(s: string, w: nat, u: Unit)
    requires 0 < w && w + |UnitName(u)| < |s|
    requires UnitName(u) <= s[w..] && !IsWordChar(s[w - 1])
    ensures WordAt(s, w) == if IsWordChar(s[w + |UnitName(u)|]) then None else Some(u)
  {
    forall v | v in WordOrder && v != u
      ensures !UnitWordAt(s, w, v)
    {
      if NameAt(s, w, UnitName(v)) {
        NameAtPrefix(s, w, UnitName(u));
        OnlyOwnUnitAt(s, w, u, v);
      }
    }
    NameAtPrefix(s, w, UnitName(u));
    assert IsWordChar(s[w]) by {
      assert s[w] == s[w..][0] == UnitName(u)[0];
    }
    var e := w + |UnitName(u)|;
    assert IsWordChar(s[e - 1]) by {
      assert s[e - 1] == s[w..][|UnitName(u)| - 1] == UnitName(u)[|UnitName(u)| - 1];
    }
    assert u in WordOrder;
    FirstWordOnly(s, w, WordOrder, u);
  }

  /** The digits and the space before the unit of a label are copied unchanged. */
  lemma PluraliseNumeralPrefix(s: string, d: string)
    requires AllDigits(d) && d + " " <= s
    ensures PluraliseFrom(s, 0) == d + " " + PluraliseFrom(s, |d| + 1)
  {
    forall j | 0 <= j < |d| + 1
      ensures WordAt(s, j).None?
    {
      assert s[j] == (d + " ")[j];
      NoWordStartMeansNone(s, j);
    }
    PluraliseCopies(s, 0, |d| + 1);
    assert s[0..|d| + 1] == d + " ";
  }

  /** The trailing " ago" of a label is copied unchanged. */
  lemma PluraliseAgoSuffix(s: string, e: nat)
    requires e + 4 == |s| && s[e..] == " ago"
    ensures PluraliseFrom(s, e) == " ago"
  {
    forall j | e <= j < |s|
      ensures WordAt(s, j).None?
    {
      assert s[j] == s[e..][j - e];
      NoWordStartMeansNone(s, j);
    }
    PluraliseCopies(s, e, |s|);
  }

  /** A matched unit word is replaced by its plural and the scan resumes after it. */
  lemma PluraliseAtWord(s: string, w: nat, u: Unit)
    requires w < |s| && WordAt(s, w) == Some(u)
    ensures PluraliseFrom(s, w) == (UnitName(u) + "s") + PluraliseFrom(s, w + |UnitName(u)|)
  {
  }

  // The texts of a label are passed as separate strings: a literal inside the
  // argument of `PluraliseFrom` makes the verifier unfold it without bound.

  /** Where the pieces of a label's text sit in it. */
  lemma LabelPositions(s: string, d: string, sp: string, word: string, ago: string)
    requires sp == " " && ago == " ago"
    requires s == d + sp + word + ago
    ensures d + " " <= s && s[|d|] == ' '
    ensures word <= s[|d| + 1..] && s[|d| + 1..|d| + 1 + |word|] == word
    ensures s[|d| + 1 + |word|..] == " ago" && s[|d| + 1 + |word|] == ' '
  {
    assert s[|d| + 1..] == word + ago;
  }

  /** A unit word between two non-word characters is made plural. */
  lemma PluraliseUnitWord(s: string, w: nat, u: Unit)
    requires 0 < w && w + |UnitName(u)| < |s|
    requires UnitName(u) <= s[w..] && !IsWordChar(s[w - 1]) && !IsWordChar(s[w + |UnitName(u)|])
    ensures PluraliseFrom(s, w) == (UnitName(u) + "s") + PluraliseFrom(s, w + |UnitName(u)|)
  {
    WordAtUnit(s, w, u);
    PluraliseAtWord(s, w, u);
  }

  /** Pluralising the text of a singular label: `s` is `d + sp + name + ago`, given by where its pieces sit. */
  lemma PluraliseSingularText(s: string, d: string, sp: string, name: string, ago: string, u: Unit)
    requires |d| > 0 && AllDigits(d)
    requires sp == " " && name == UnitName(u) && ago == " ago"
    requires d + " " <= s && s[|d|] == ' '
    requires name <= s[|d| + 1..] && |d| + 1 + |name| <= |s|
    requires s[|d| + 1 + |name|..] == " ago" && s[|d| + 1 + |name|] == ' '
    ensures Pluralise(s) == d + sp + (name + "s") + ago
  {
    var w := |d| + 1;
    PluraliseNumeralPrefix(s, d);
    PluraliseSingularTail(s, w, w + |name|, u);
    AppendAssoc(d + sp, name + "s", ago);
  }

  /** From the unit word of a singular label on: the word made plural, then " ago". */
  lemma PluraliseSingularTail(s: string, w: nat, e: nat, u: Unit)
    requires 0 < w && e == w + |UnitName(u)| && e + 4 == |s|
    requires UnitName(u) <= s[w..] && !IsWordChar(s[w - 1]) && !IsWordChar(s[e])
    requires s[e..] == " ago"
    ensures PluraliseFrom(s, w) == (UnitName(u) + "s") + " ago"
  {
    PluraliseUnitWord(s, w, u);
    PluraliseAgoSuffix(s, e);
  }

  lemma PluralisePluralText(s: string, d: string, sp: string, word: string, ago: string, u: Unit)
    requires |d| > 0 && AllDigits(d)
    requires sp == " " && word == UnitName(u) + "s" && ago == " ago"
    requires s == d + sp + word + ago
    ensures Pluralise(s) == s
  {
    var name := UnitName(u);
    var w := |d| + 1;
    var e := w + |word|;
    assert s[w..] == name + ("s" + ago);
    assert s[w + |name|] == 's';
    assert s[w..e] == word;
    assert s[e..] == ago;
    forall j | 0 <= j < |s|
      ensures WordAt(s, j).None?
    {
      if j < |d| {
        assert s[j] == d[j];
        NoWordStartMeansNone(s, j);
      } else if j == |d| {
        assert s[j] == ' ';
        NoWordStartMeansNone(s, j);
      } else if j == w {
        // "<unit>s": the `\b` after the unit word fails on the "s".
        assert s[w - 1] == ' ';
        WordAtUnit(s, w, u);
      } else if j < e {
        // Every later letter of the word follows a word character.
        assert s[j - 1] == s[w..e][j - 1 - w];
        NoWordStartMeansNone(s, j);
      } else {
        assert s[j] == s[e..][j - e];
        NoWordStartMeansNone(s, j);
      }
    }
    PluraliseCopies(s, 0, |s|);
  }

  /** Pluralising a label's text makes its unit plural and changes nothing else. */
  lemma PluraliseLabel(l: Label)
    requires ValidLabel(l)
    ensures Pluralise(LabelText(l)) == LabelText(l.(plural := true))
  {
    var sp, ago := " ", " ago";
    var d, word, pl := l.digits, UnitText(l.unit, l.plural), UnitText(l.unit, true);
    AppendAssoc(d, sp + word, ago);
    AppendAssoc(d, sp, word);
    AppendAssoc(d, sp + pl, ago);
    AppendAssoc(d, sp, pl);
    assert LabelText(l) == d + sp + word + ago;
    assert LabelText(l.(plural := true)) == d + sp + pl + ago;
    if l.plural {
      PluralisePluralText(LabelText(l), l.digits, sp, word, ago, l.unit);
    } else {
      AppendEmpty(UnitName(l.unit));
      LabelPositions(LabelText(l), d, sp, word, ago);
      PluraliseSingularText(LabelText(l), l.digits, sp, word, ago, l.unit);
    }
  }

  // ---------------------------------------------------------------------
  // The `released` field of a scraped record

  /**
   * `released` as `scrape_search_element` computes it: the first label found
   * anywhere in `description or ""`, with its unit made plural; `None` when
   * there is no description or no label in it.
   */
  function ExtractReleased(description: Option<string>): (r: Option<string>) {
    var text := description.GetOr("");
    match FirstLabelFrom(text, 0)
    case None => None
    case Some(i) => Some(Pluralise(LabelText(MatchLabel(text[i..]).value)))
  }

  /** There is no released text exactly when there is no description or no label anywhere in it. */
  lemma ReleasedNone(description: Option<string>)
    ensures ExtractReleased(description).None? <==>
            (description.None? || forall j :: 0 <= j < |description.value| ==> MatchLabel(description.value[j..]).None?)
  {
    if description.Some? {
      var d := description.value;
      NoLabelInMeans(d, 0, |d|);
      var r := FirstLabelFrom(d, 0);
      if r.Some? {
        assert MatchLabel(d[r.value..]).Some?;
      }
    }
  }

  /** The released text is the first label of the description, made plural. */
  lemma ReleasedIsFirstLabel(d: string, i: nat)
    requires i < |d| && MatchLabel(d[i..]).Some?
    requires forall j :: 0 <= j < i ==> MatchLabel(d[j..]).None?
    ensures ExtractReleased(Some(d)) == Some(LabelText(MatchLabel(d[i..]).value.(plural := true)))
  {
    FirstLabelAt(d, 0, i);
    PluraliseLabel(MatchLabel(d[i..]).value);
  }

  /** The scan from `i` stops at `k` when a label starts there and none starts between. */
  lemma {:induction false} FirstLabelAt(s: string, i: nat, k: nat)
    requires i <= k < |s| && MatchLabel(s[k..]).Some?
    requires forall j :: i <= j < k ==> MatchLabel(s[j..]).None?
    ensures FirstLabelFrom(s, i) == Some(k)
    decreases k - i
  {
    if i < k {
      assert MatchLabel(s[i..]).None?;
      FirstLabelAt(s, i + 1, k);
    }
  }

  /** A released text is a label with a plural unit, and pluralising it again changes nothing. */
  lemma ReleasedIsNormalised(description: Option<string>)
    requires ExtractReleased(description).Some?
    ensures var r := ExtractReleased(description).value;
            MatchLabel(r).Some? && MatchLabel(r).value.plural && Pluralise(r) == r
  {
    var text := description.value;
    var i := FirstLabelFrom(text, 0).value;
    var l := MatchLabel(text[i..]).value;
    var p := l.(plural := true);
    PluraliseLabel(l);
    PluraliseLabel(p);
    assert LabelText(p) + "" == LabelText(p);
    MatchLabelOfText(p, "");
  }

  /** Parsing the released text gives the key the raw label in the description would give. */
  lemma ParseIgnoresPluralising(description: Option<string>)
    requires ExtractReleased(description).Some?
    ensures var i := FirstLabelFrom(description.value, 0).value;
            ParseReleasedTime(ExtractReleased(description)) == ParseReleasedTime(Some(description.value[i..]))
  {
    var text := description.value;
    var i := FirstLabelFrom(text, 0).value;
    ParsePluralised(MatchLabel(text[i..]).value);
  }

  /** The text of a valid label, made plural, parses to the label's key. */
  lemma ParsePluralised(l: Label)
    requires ValidLabel(l)
    ensures ParseReleasedTime(Some(Pluralise(LabelText(l)))) == Key(Rank(l.unit), NumeralValue(l.digits))
  {
    var p := l.(plural := true);
    PluraliseLabel(l);
    assert LabelText(p) + "" == LabelText(p);
    ParseValidLabel(p, "");
  }
}
