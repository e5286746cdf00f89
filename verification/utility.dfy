/** The localised date-token rewriter: an ordered fold of first-occurrence
    string replacements over a fixed table of Chinese weekday and month
    tokens. */
module Utility {
  import opened Wrappers

  /** One row of the replacement table: a token and its English abbreviation. */
  datatype Replacement = Replacement(key: string, value: string)

  /** The table, in declaration order. Order matters: '一月' precedes '十一月'. */
  const Replacements: seq<Replacement> := [
    Replacement("週日", "Sun"),
    Replacement("週一", "Mon"),
    Replacement("週二", "Tue"),
    Replacement("週三", "Wed"),
    Replacement("週四", "Thu"),
    Replacement("週五", "Fri"),
    Replacement("週六", "Sat"),
    Replacement("一月", "Jan"),
    Replacement("二月", "Feb"),
    Replacement("三月", "Mar"),
    Replacement("四月", "Apr"),
    Replacement("五月", "May"),
    Replacement("六月", "Jun"),
    Replacement("七月", "Jul"),
    Replacement("八月", "Aug"),
    Replacement("九月", "Sep"),
    Replacement("十月", "Oct"),
    Replacement("十一月", "Nov"),
    Replacement("十二月", "Dec")
  ]

  // ---------------------------------------------------------------------
  // String.prototype.replace with a string pattern
  // ---------------------------------------------------------------------

  /** `key` occurs in `s` starting at position `i`. */
  predicate OccursAt(s: string, key: string, i: int) {
    0 <= i && i + |key| <= |s| && s[i..i + |key|] == key
  }

  /** `i` is the leftmost occurrence of `key` in `s`. */
  predicate FirstOccurrence(s: string, key: string, i: int) {
    OccursAt(s, key, i) && forall j :: 0 <= j < i ==> !OccursAt(s, key, j)
  }

  /** Leftmost occurrence of `key` in `s` at or after `from`. */
  function IndexFrom(s: string, key: string, from: nat): (r: Option<nat>)
    requires from <= |s| + 1
    ensures r.Some? ==> from <= r.value && OccursAt(s, key, r.value)
    ensures r.Some? ==> forall j :: from <= j < r.value ==> !OccursAt(s, key, j)
    ensures r.None? ==> forall j :: from <= j ==> !OccursAt(s, key, j)
    decreases |s| + 1 - from
  {
    if from + |key| > |s| then None
    else if s[from..from + |key|] == key then Some(from)
    else IndexFrom(s, key, from + 1)
  }

  /** `String.prototype.indexOf`: the leftmost occurrence, if any. */
  function IndexOf(s: string, key: string): (r: Option<nat>)
    ensures r.Some? ==> FirstOccurrence(s, key, r.value)
    ensures r.None? ==> forall j :: !OccursAt(s, key, j)
  {
    IndexFrom(s, key, 0)
  }

  /** `s.replace(key, value)` with a string pattern: only the leftmost
      occurrence of `key` is replaced; without one, `s` is returned as is. */
  function ReplaceFirst(s: string, key: string, value: string): (r: string)
    ensures (forall j :: !OccursAt(s, key, j)) ==> r == s
    ensures forall i :: FirstOccurrence(s, key, i) ==>
      r == s[..i] + value + s[i + |key|..]
  {
    match IndexOf(s, key)
    case None => s
    case Some(i) => s[..i] + value + s[i + |key|..]
  }

  // ---------------------------------------------------------------------
  // convertDate
  // ---------------------------------------------------------------------

  /** The `for … of` loop: one `replace` per table row, first row first. */
  function ApplyAll(table: seq<Replacement>, s: string): string
    decreases |table|
  {
    if table == [] then s
    else ApplyAll(table[1..], ReplaceFirst(s, table[0].key, table[0].value))
  }

  /** `convertDate`. Total: every string is accepted. */
  function ConvertDate(source: string): string {
    ApplyAll(Replacements, source)
  }

  // ---------------------------------------------------------------------
  // Properties
  // ---------------------------------------------------------------------

  /** The table has exactly 19 rows; the day rows come first, then the months,
      and the rows of '一月'/'十一月' and '二月'/'十二月' are in that order. */
  lemma TableShape()
    ensures |Replacements| == 19
    ensures forall k :: 0 <= k < 7 ==> Replacements[k].key[0] == '週'
    ensures forall k :: 7 <= k < 19 ==> Replacements[k].key[|Replacements[k].key| - 1] == '月'
    ensures Replacements[7] == Replacement("一月", "Jan") && Replacements[17] == Replacement("十一月", "Nov")
    ensures Replacements[8] == Replacement("二月", "Feb") && Replacements[18] == Replacement("十二月", "Dec")
  {
  }

  /** Folding over `a + b` is folding over `a`, then over `b`: the table is
      applied row by row in order, and a row sees the output of every row
      before it. */
  lemma {:induction false} ApplyAllConcat(a: seq<Replacement>, b: seq<Replacement>, s: string)
    ensures ApplyAll(a + b, s) == ApplyAll(b, ApplyAll(a, s))
    decreases |a|
  {
    if a == [] {
      assert a + b == b;
    } else {
      assert (a + b)[1..] == a[1..] + b;
      ApplyAllConcat(a[1..], b, ReplaceFirst(s, a[0].key, a[0].value));
    }
  }

  /** One pass per row: applying a table extended by one row is one more
      `replace` of that row's key on the previous result. */
  lemma ApplyAllSnoc(table: seq<Replacement>, row: Replacement, s: string)
    ensures ApplyAll(table + [row], s) == ReplaceFirst(ApplyAll(table, s), row.key, row.value)
  {
    ApplyAllConcat(table, [row], s);
  }

  /** A key with a character that `s` lacks cannot occur in `s`. */
  predicate MissingChar(s: string, key: string) {
    exists k :: 0 <= k < |key| && key[k] !in s
  }

  lemma MissingCharNoOccurrence(s: string, key: string)
    requires MissingChar(s, key)
    ensures forall j :: !OccursAt(s, key, j)
  {
    var k :| 0 <= k < |key| && key[k] !in s;
    forall j | OccursAt(s, key, j)
      ensures false
    {
    }
  }

  /** Rows whose keys cannot occur leave the string unchanged. */
  lemma {:induction false} ApplyAllMissing(table: seq<Replacement>, s: string)
    requires forall k :: 0 <= k < |table| ==> MissingChar(s, table[k].key)
    ensures ApplyAll(table, s) == s
    decreases |table|
  {
    if table != [] {
      MissingCharNoOccurrence(s, table[0].key);
      ApplyAllMissing(table[1..], s);
    }
  }

  /** A key that starts at `|a|` in `a + key + b`, with its first character
      absent from `a`, is the leftmost occurrence and is the one replaced. */
  lemma ReplaceAfterPrefix(a: string, key: string, b: string, value: string)
    requires |key| > 0 && key[0] !in a
    ensures ReplaceFirst(a + key + b, key, value) == a + value + b
  {
    var s := a + key + b;
    assert s[|a|..|a| + |key|] == key;
    forall j | 0 <= j < |a|
      ensures !OccursAt(s, key, j)
    {
      assert s[j] == a[j];
    }
    assert FirstOccurrence(s, key, |a|);
    assert s[..|a|] == a;
    assert s[|a| + |key|..] == b;
  }

  /** Each key replaces its leftmost occurrence only: an occurrence that
      starts after the replaced one survives, shifted by the length change. */
  lemma LaterOccurrenceSurvives(s: string, key: string, value: string, i: int, j: int)
    requires FirstOccurrence(s, key, i)
    requires OccursAt(s, key, j) && j >= i + |key|
    ensures OccursAt(ReplaceFirst(s, key, value), key, j - |key| + |value|)
  {
    var head := s[..i] + value;
    var tail := s[i + |key|..];
    var x := j - i - |key|;
    assert tail[x..x + |key|] == s[j..j + |key|];
    OccursInRightPart(head, tail, key, x);
    assert ReplaceFirst(s, key, value) == head + tail;
  }

  lemma OccursInRightPart(a: string, b: string, key: string, x: int)
    requires OccursAt(b, key, x)
    ensures OccursAt(a + b, key, |a| + x)
  {
    assert (a + b)[|a| + x..|a| + x + |key|] == b[x..x + |key|];
  }

  /** Every key contains '週' or '月'. */
  lemma KeysContainMarker()
    ensures forall k :: 0 <= k < |Replacements| ==>
      ('週' in Replacements[k].key || '月' in Replacements[k].key)
  {
  }

  /** Every English value is made of ASCII letters, while every key is made
      of CJK characters; so no value contains a character of any key, and a
      row never rewrites text that an earlier row inserted. */
  lemma ValuesShareNoCharWithKeys()
    ensures forall k, m :: 0 <= k < |Replacements| && 0 <= m < |Replacements| ==>
      forall c :: c in Replacements[k].value ==> c !in Replacements[m].key
  {
    ValuesOfReplacements();
    KeysOfReplacementsNotAscii();
  }

  /** Every character of every key lies outside ASCII. */
  lemma KeysOfReplacementsNotAscii()
    ensures forall m :: 0 <= m < |Replacements| ==>
      forall c :: c in Replacements[m].key ==> (c as int) >= 128
  {
  }

  /** A string with neither '週' nor '月' -- in particular an all-English
      date -- is returned unchanged. */
  lemma NoMarkerIsIdentity(s: string)
    requires '週' !in s && '月' !in s
    ensures ConvertDate(s) == s
  {
    KeysContainMarker();
    forall k | 0 <= k < |Replacements|
      ensures MissingChar(s, Replacements[k].key)
    {
      var key := Replacements[k].key;
      if '週' in key {
        var p :| 0 <= p < |key| && key[p] == '週';
      } else {
        var p :| 0 <= p < |key| && key[p] == '月';
      }
    }
    ApplyAllMissing(Replacements, s);
  }

  /** More generally, a string in which no key occurs is returned unchanged. */
  lemma {:induction false} NoKeyIsIdentity(table: seq<Replacement>, s: string)
    requires forall k, j :: 0 <= k < |table| ==> !OccursAt(s, table[k].key, j)
    ensures ApplyAll(table, s) == s
    decreases |table|
  {
    if table != [] {
      NoKeyIsIdentity(table[1..], s);
    }
  }

  /** An all-ASCII string, such as the English date of the tests, is
      returned unchanged. */
  lemma AsciiUnchanged(s: string)
    requires Ascii(s)
    ensures ConvertDate(s) == s
  {
    assert '週' !in s && '月' !in s;
    NoMarkerIsIdentity(s);
  }

  /** Characters below U+0080: the English text around the tokens. */
  predicate Ascii(s: string) {
    forall c :: c in s ==> (c as int) < 128
  }

  /** Shape of a table like `Replacements`: 19 rows, weekday rows first
      (see `WeekdayRowsShaped`), then month rows (see `MonthRowsShaped`),
      with ASCII values. */
  predicate WellShaped(T: seq<Replacement>) {
    |T| == 19 && WeekdayRowsShaped(T) && MonthRowsShaped(T) && ValuesAscii(T)
  }

  /** Rows 0..6 are '週' followed by a character that differs from row to
      row. */
  predicate WeekdayRowsShaped(T: seq<Replacement>)
    requires |T| == 19
  {
    && (forall j :: 0 <= j < 7 ==>
          |T[j].key| == 2 && T[j].key[0] == '週' &&
          T[j].key[1] != '週' && (T[j].key[1] as int) >= 128)
    && (forall j, k :: 0 <= j < k < 7 ==> T[j].key[1] != T[k].key[1])
  }

  /** Rows 7..16 are a character that differs from row to row followed by
      '月'; every row from 7 on ends in '月'. */
  predicate MonthRowsShaped(T: seq<Replacement>)
    requires |T| == 19
  {
    && (forall j :: 7 <= j < 17 ==>
          |T[j].key| == 2 && T[j].key[1] == '月' &&
          T[j].key[0] != '週' && T[j].key[0] != '月' && (T[j].key[0] as int) >= 128)
    && (forall j, k :: 7 <= j < k < 17 ==> T[j].key[0] != T[k].key[0])
    && (forall j :: 7 <= j < 19 ==> |T[j].key| >= 2 && T[j].key[|T[j].key| - 1] == '月')
  }

  /** Every value is ASCII. */
  predicate ValuesAscii(T: seq<Replacement>) {
    forall j :: 0 <= j < |T| ==> Ascii(T[j].value)
  }

  lemma ReplacementsWellShaped()
    ensures WellShaped(Replacements)
  {
    WeekdayRowsOfReplacements();
    MonthRowsOfReplacements();
    ValuesOfReplacements();
  }

  lemma ValuesOfReplacements()
    ensures ValuesAscii(Replacements)
  {
  }

  lemma WeekdayRowsOfReplacements()
    ensures |Replacements| == 19 && WeekdayRowsShaped(Replacements)
  {
    var T := Replacements;
    forall j | 0 <= j < 7
      ensures |T[j].key| == 2 && T[j].key[0] == '週' && T[j].key[1] != '週'
      ensures (T[j].key[1] as int) >= 128 && WeekdayCode(T[j].key[1]) == j
    {
    }
    forall j, k | 0 <= j < k < 7
      ensures T[j].key[1] != T[k].key[1]
    {
      assert WeekdayCode(T[j].key[1]) != WeekdayCode(T[k].key[1]);
    }
  }

  lemma MonthRowsOfReplacements()
    ensures |Replacements| == 19 && MonthRowsShaped(Replacements)
  {
    var T := Replacements;
    forall j | 7 <= j < 17
      ensures |T[j].key| == 2 && T[j].key[1] == '月' && T[j].key[0] != '週' && T[j].key[0] != '月'
      ensures (T[j].key[0] as int) >= 128 && MonthCode(T[j].key[0]) == j
    {
    }
    forall j, k | 7 <= j < k < 17
      ensures T[j].key[0] != T[k].key[0]
    {
      assert MonthCode(T[j].key[0]) != MonthCode(T[k].key[0]);
    }
    assert T[17].key == "十一月" && T[18].key == "十二月";
  }

  /** Position of a weekday character in the table: tells the weekday rows
      apart without comparing them pairwise. */
  function WeekdayCode(c: char): int {
    if c == '日' then 0 else if c == '一' then 1 else if c == '二' then 2
    else if c == '三' then 3 else if c == '四' then 4 else if c == '五' then 5
    else if c == '六' then 6 else -1
  }

  /** Position of a month-number character in the table. */
  function MonthCode(c: char): int {
    if c == '一' then 7 else if c == '二' then 8 else if c == '三' then 9
    else if c == '四' then 10 else if c == '五' then 11 else if c == '六' then 12
    else if c == '七' then 13 else if c == '八' then 14 else if c == '九' then 15
    else if c == '十' then 16 else -1
  }

  lemma Regroup(a: string, b: string, c: string, d: string)
    ensures a + (b + c) + d == (a + b) + c + d
  {
  }

  /** Splitting the table at row `k`: the rows after `k` see the output of
      the rows before it. */
  lemma {:induction false} ApplyAllSplit(T: seq<Replacement>, k: int, s: string)
    requires 0 <= k <= |T|
    ensures ApplyAll(T, s) == ApplyAll(T[k..], ApplyAll(T[..k], s))
    decreases k
  {
    if k > 0 {
      ApplyAllSplit(T[1..], k - 1, ReplaceFirst(s, T[0].key, T[0].value));
      assert T[1..][k - 1..] == T[k..];
      assert T[..k][1..] == T[1..][..k - 1];
    }
  }

  /** In a date whose weekday and month are written as tokens and whose
      remaining text is ASCII, the weekday rows before `d` do not occur. */
  lemma EarlierWeekdaysAbsent(T: seq<Replacement>, d: int, mid: string, mk: string, tail: string)
    requires WellShaped(T)
    requires 0 <= d < 7 && Ascii(mid) && Ascii(tail) && '週' !in mk
    ensures forall j, p :: 0 <= j < d ==> !OccursAt(T[d].key + mid + mk + tail, T[j].key, p)
  {
    var s := T[d].key + mid + mk + tail;
    assert s[0] == T[d].key[0] && s[1] == T[d].key[1];
    assert '週' !in mid + mk + tail;
    forall j, p | 0 <= j < d
      ensures !OccursAt(s, T[j].key, p)
    {
      if 0 <= p && p + 2 <= |s| {
        assert s[p..p + 2][0] == s[p] && s[p..p + 2][1] == s[p + 1];
      }
      if 2 <= p < |s| {
        assert s[p] == (mid + mk + tail)[p - 2];
      }
    }
  }

  /** The weekday/month conversion, for any well-shaped table. */
  lemma WeekdayAndMonthIn(T: seq<Replacement>, d: int, m: int, mid: string, tail: string)
    requires WellShaped(T)
    requires 0 <= d < 7 && 7 <= m < 17
    requires Ascii(mid) && Ascii(tail)
    ensures ApplyAll(T, T[d].key + mid + T[m].key + tail) == T[d].value + mid + T[m].value + tail
  {
    // rows before m turn the weekday into English and leave the month alone
    RowsBeforeMonth(T, d, m, mid, tail);
    // row m is replaced; no later row applies
    MonthRowAndRest(T, d, m, mid, tail);
    ApplyAllSplit(T, m, T[d].key + mid + T[m].key + tail);
  }

  lemma RowsBeforeMonth(T: seq<Replacement>, d: int, m: int, mid: string, tail: string)
    requires WellShaped(T)
    requires 0 <= d < 7 && 7 <= m < 17
    requires Ascii(mid) && Ascii(tail)
    ensures ApplyAll(T[..m], T[d].key + mid + T[m].key + tail) == T[d].value + mid + T[m].key + tail
  {
    // rows 0 .. d-1 do not occur
    EarlierWeekdayRowsSkipMonth(T, d, m, mid, tail);
    // row d is replaced; rows d+1 .. m-1 do not occur
    WeekdayRowAndBetween(T, d, m, mid, tail);
    SkipThenApplyPrefix(T, d, m, T[d].key + mid + T[m].key + tail, T[d].value + mid + T[m].key + tail);
  }

  lemma SkipThenApplyPrefix(T: seq<Replacement>, d: int, m: int, s0: string, s1: string)
    requires 0 <= d <= m <= |T|
    requires ApplyAll(T[..d], s0) == s0
    requires ApplyAll(T[d..m], s0) == s1
    ensures ApplyAll(T[..m], s0) == s1
  {
    assert T[..m][..d] == T[..d];
    assert T[..m][d..] == T[d..m];
    SkipThenApply(T[..m], d, s0, s1);
  }

  lemma EarlierWeekdayRowsSkipMonth(T: seq<Replacement>, d: int, m: int, mid: string, tail: string)
    requires WellShaped(T)
    requires 0 <= d < 7 && 7 <= m < 17
    requires Ascii(mid) && Ascii(tail)
    ensures ApplyAll(T[..d], T[d].key + mid + T[m].key + tail) == T[d].key + mid + T[m].key + tail
  {
    MonthKeyLacksWeekMarker(T, m);
    EarlierWeekdayRowsSkip(T, d, mid, T[m].key, tail);
  }

  lemma MonthKeyLacksWeekMarker(T: seq<Replacement>, m: int)
    requires WellShaped(T) && 7 <= m < 17
    ensures '週' !in T[m].key
  {
    assert T[m].key == [T[m].key[0], T[m].key[1]];
  }

  lemma EarlierWeekdayRowsSkip(T: seq<Replacement>, d: int, mid: string, mk: string, tail: string)
    requires WellShaped(T)
    requires 0 <= d < 7 && Ascii(mid) && Ascii(tail) && '週' !in mk
    ensures ApplyAll(T[..d], T[d].key + mid + mk + tail) == T[d].key + mid + mk + tail
  {
    EarlierWeekdaysAbsent(T, d, mid, mk, tail);
    NoKeyIsIdentity(T[..d], T[d].key + mid + mk + tail);
  }

  /** When the rows before `d` leave `s0` alone, the whole table does what
      the rows from `d` on do. */
  lemma SkipThenApply(U: seq<Replacement>, d: int, s0: string, s1: string)
    requires 0 <= d <= |U|
    requires ApplyAll(U[..d], s0) == s0
    requires ApplyAll(U[d..], s0) == s1
    ensures ApplyAll(U, s0) == s1
  {
    ApplyAllSplit(U, d, s0);
  }

  lemma WeekdayRowAndBetween(T: seq<Replacement>, d: int, m: int, mid: string, tail: string)
    requires WellShaped(T)
    requires 0 <= d < 7 && 7 <= m < 17
    requires Ascii(mid) && Ascii(tail)
    ensures ApplyAll(T[d..m], T[d].key + mid + T[m].key + tail) == T[d].value + mid + T[m].key + tail
  {
    WeekdayRowReplaced(T, d, mid, T[m].key, tail);
    BetweenRowsAbsent(T, d, m, mid, tail);
    assert T[d..m][1..] == T[d + 1..m];
  }

  lemma WeekdayRowReplaced(T: seq<Replacement>, d: int, mid: string, mk: string, tail: string)
    requires WellShaped(T) && 0 <= d < 7
    ensures ReplaceFirst(T[d].key + mid + mk + tail, T[d].key, T[d].value) == T[d].value + mid + mk + tail
  {
    ReplaceAfterPrefix([], T[d].key, mid + mk + tail, T[d].value);
    PrependRegroup(T[d].key, mid, mk, tail);
    PrependRegroup(T[d].value, mid, mk, tail);
  }

  lemma PrependRegroup(a: string, b: string, c: string, d: string)
    ensures [] + a + (b + c + d) == a + b + c + d
  {
  }

  lemma MonthRowAndRest(T: seq<Replacement>, d: int, m: int, mid: string, tail: string)
    requires WellShaped(T)
    requires 0 <= d < 7 && 7 <= m < 17
    requires Ascii(mid) && Ascii(tail)
    ensures ApplyAll(T[m..], T[d].value + mid + T[m].key + tail) == T[d].value + mid + T[m].value + tail
  {
    var s1 := T[d].value + mid + T[m].value + tail;
    MonthRowReplaced(T, m, T[d].value + mid, tail);
    AsciiLacksMonthMarker(T[d].value, mid, T[m].value, tail);
    LaterMonthsAbsent(T, m, s1);
    assert T[m..][0] == T[m] && T[m..][1..] == T[m + 1..];
    assert ApplyAll(T[m..], T[d].value + mid + T[m].key + tail) == ApplyAll(T[m + 1..], s1);
  }

  lemma AsciiLacksMonthMarker(a: string, b: string, c: string, d: string)
    requires Ascii(a) && Ascii(b) && Ascii(c) && Ascii(d)
    ensures '月' !in a + b + c + d
  {
    var s := a + b + c + d;
    forall x | x in s
      ensures x != '月'
    {
      if x in a { } else if x in b { } else if x in c { } else { assert x in d; }
    }
  }

  lemma MonthRowReplaced(T: seq<Replacement>, m: int, head: string, tail: string)
    requires WellShaped(T) && 7 <= m < 17
    requires Ascii(head)
    ensures ReplaceFirst(head + T[m].key + tail, T[m].key, T[m].value) == head + T[m].value + tail
  {
    ReplaceAfterPrefix(head, T[m].key, tail, T[m].value);
  }

  /** After the weekday is rewritten, the rows strictly between the weekday
      row and the month row each lack a character of the string. */
  lemma BetweenRowsAbsent(T: seq<Replacement>, d: int, m: int, mid: string, tail: string)
    requires WellShaped(T)
    requires 0 <= d < 7 && 7 <= m < 17
    requires Ascii(mid) && Ascii(tail)
    ensures ApplyAll(T[d + 1..m], T[d].value + mid + T[m].key + tail) == T[d].value + mid + T[m].key + tail
  {
    var s1 := T[d].value + mid + T[m].key + tail;
    MonthDateChars(T, m, T[d].value + mid, tail, s1);
    BetweenFirstCharsAbsent(T, d, m, s1);
    ApplyAllMissing(T[d + 1..m], s1);
  }

  lemma MonthDateChars(T: seq<Replacement>, m: int, head: string, tail: string, s: string)
    requires WellShaped(T) && 7 <= m < 17
    requires Ascii(head) && Ascii(tail) && s == head + T[m].key + tail
    ensures forall c :: c in s ==> (c as int) < 128 || c == T[m].key[0] || c == '月'
  {
  }

  lemma BetweenFirstCharsAbsent(T: seq<Replacement>, d: int, m: int, s: string)
    requires WellShaped(T)
    requires 0 <= d < 7 && 7 <= m < 17
    requires forall c :: c in s ==> (c as int) < 128 || c == T[m].key[0] || c == '月'
    ensures forall j :: d + 1 <= j < m ==> MissingChar(s, T[j].key)
  {
    forall j | d + 1 <= j < m
      ensures MissingChar(s, T[j].key)
    {
      assert T[j].key[0] !in s;
    }
  }

  /** Rows `m + 1` to the end all end in '月'; a string without '月' is left
      unchanged by them. */
  lemma LaterMonthsAbsent(T: seq<Replacement>, m: int, s: string)
    requires WellShaped(T) && 7 <= m < 19
    requires '月' !in s
    ensures ApplyAll(T[m + 1..], s) == s
  {
    forall j | m + 1 <= j < |T|
      ensures MissingChar(s, T[j].key)
    {
      assert T[j].key[|T[j].key| - 1] !in s;
    }
    ApplyAllMissing(T[m + 1..], s);
  }

  /** Every weekday token and every month token from '一月' to '十月' is
      rewritten in place to its abbreviation; the ASCII text around them is
      left untouched. (The test's '週六, 14 六月 2025 04:51:00 +0000' is the
      instance d = 6, m = 12, mid = ", 14 ", tail = " 2025 04:51:00 +0000".) */
  lemma WeekdayAndMonthConverted(d: int, m: int, mid: string, tail: string)
    requires 0 <= d < 7 && 7 <= m < 17
    requires Ascii(mid) && Ascii(tail)
    ensures ConvertDate(Replacements[d].key + mid + Replacements[m].key + tail) ==
      Replacements[d].value + mid + Replacements[m].value + tail
  {
    ReplacementsWellShaped();
    WeekdayAndMonthIn(Replacements, d, m, mid, tail);
  }

  /** The test's Chinese date becomes the test's English date. */
  lemma ChineseDateConverted()
    ensures ConvertDate("週六, 14 六月 2025 04:51:00 +0000") == "Sat, 14 Jun 2025 04:51:00 +0000"
  {
    SaturdayAndJuneRows();
    TestDatesSpelled();
    WeekdayAndMonthConverted(6, 12, ", 14 ", " 2025 04:51:00 +0000");
  }

  /** The test's two dates, cut at their tokens. */
  lemma TestDatesSpelled()
    ensures "週六" + ", 14 " + "六月" + " 2025 04:51:00 +0000" == "週六, 14 六月 2025 04:51:00 +0000"
    ensures "Sat" + ", 14 " + "Jun" + " 2025 04:51:00 +0000" == "Sat, 14 Jun 2025 04:51:00 +0000"
  {
  }

  lemma SaturdayAndJuneRows()
    ensures Replacements[6] == Replacement("週六", "Sat")
    ensures Replacements[12] == Replacement("六月", "Jun")
  {
  }

  /** The two-digit month quirk, for any well-shaped table whose row
      `m + 10` is '十' followed by the key of row `m`. */
  lemma TwoDigitMonthIn(T: seq<Replacement>, m: int, mid: string, tail: string)
    requires WellShaped(T) && (m == 7 || m == 8)
    requires T[m + 10].key == "十" + T[m].key
    requires forall j :: 7 <= j <= m ==> T[j].key[0] != '十'
    requires Ascii(mid) && Ascii(tail)
    ensures ApplyAll(T, mid + T[m + 10].key + tail) == mid + "十" + T[m].value + tail
  {
    var s0 := mid + T[m + 10].key + tail;
    // rows before m lack their first character
    RowsBeforeTwoDigitAbsent(T, m, mid, tail);
    // row m is replaced, and no later row applies
    TwoDigitRowAndRest(T, m, mid, tail);
    ApplyAllSplit(T, m, s0);
  }

  lemma TwoDigitRowAndRest(T: seq<Replacement>, m: int, mid: string, tail: string)
    requires WellShaped(T) && (m == 7 || m == 8)
    requires T[m + 10].key == "十" + T[m].key
    requires forall j :: 7 <= j <= m ==> T[j].key[0] != '十'
    requires Ascii(mid) && Ascii(tail)
    ensures ApplyAll(T[m..], mid + T[m + 10].key + tail) == mid + "十" + T[m].value + tail
  {
    var s1 := mid + "十" + T[m].value + tail;
    TwoDigitRowReplaced(T, m, mid, tail);
    // every later key ends in '月', which s1 lacks
    TensLacksMonthMarker(mid, T[m].value, tail);
    LaterMonthsAbsent(T, m, s1);
    assert T[m..][0] == T[m] && T[m..][1..] == T[m + 1..];
    assert ApplyAll(T[m..], mid + T[m + 10].key + tail) == ApplyAll(T[m + 1..], s1);
  }

  lemma TensLacksMonthMarker(mid: string, v: string, tail: string)
    requires Ascii(mid) && Ascii(v) && Ascii(tail)
    ensures '月' !in mid + "十" + v + tail
  {
    var s := mid + "十" + v + tail;
    forall c | c in s
      ensures c != '月'
    {
      if c in mid { } else if c in "十" { } else if c in v { } else { assert c in tail; }
    }
  }

  lemma TwoDigitRowReplaced(T: seq<Replacement>, m: int, mid: string, tail: string)
    requires WellShaped(T) && (m == 7 || m == 8)
    requires T[m + 10].key == "十" + T[m].key
    requires T[m].key[0] != '十'
    requires Ascii(mid)
    ensures ReplaceFirst(mid + T[m + 10].key + tail, T[m].key, T[m].value) == mid + "十" + T[m].value + tail
  {
    assert T[m].key[0] !in mid + "十";
    ReplaceAfterPrefix(mid + "十", T[m].key, tail, T[m].value);
    Regroup(mid, "十", T[m].key, tail);
  }

  lemma RowsBeforeTwoDigitAbsent(T: seq<Replacement>, m: int, mid: string, tail: string)
    requires WellShaped(T) && (m == 7 || m == 8)
    requires T[m + 10].key == "十" + T[m].key
    requires forall j :: 7 <= j <= m ==> T[j].key[0] != '十'
    requires Ascii(mid) && Ascii(tail)
    ensures ApplyAll(T[..m], mid + T[m + 10].key + tail) == mid + T[m + 10].key + tail
  {
    var s0 := mid + T[m + 10].key + tail;
    TwoDigitChars(T, m, mid, tail, s0);
    FirstCharsAbsent(T, m, s0);
    ApplyAllMissing(T[..m], s0);
  }

  lemma TwoDigitChars(T: seq<Replacement>, m: int, mid: string, tail: string, s0: string)
    requires |T| == 19 && 7 <= m <= 8
    requires T[m + 10].key == "十" + T[m].key && |T[m].key| == 2 && T[m].key[1] == '月'
    requires Ascii(mid) && Ascii(tail) && s0 == mid + T[m + 10].key + tail
    ensures forall c :: c in s0 ==> (c as int) < 128 || c == '十' || c == T[m].key[0] || c == '月'
  {
  }

  lemma FirstCharsAbsent(T: seq<Replacement>, m: int, s0: string)
    requires WellShaped(T) && (m == 7 || m == 8)
    requires forall c :: c in s0 ==> (c as int) < 128 || c == '十' || c == T[m].key[0] || c == '月'
    requires forall j :: 7 <= j <= m ==> T[j].key[0] != '十'
    ensures forall j :: 0 <= j < m ==> MissingChar(s0, T[j].key)
  {
    forall j | 0 <= j < m
      ensures MissingChar(s0, T[j].key)
    {
      assert T[j].key[0] !in s0;
    }
  }

  /** Rows 17 and 18 are '十' followed by the key of row 7 and row 8, and
      neither row 7 nor row 8 starts with '十'. */
  lemma TwoDigitRowsOfReplacements()
    ensures Replacements[17].key == "十" + Replacements[7].key && Replacements[17].key == "十一月"
    ensures Replacements[18].key == "十" + Replacements[8].key && Replacements[18].key == "十二月"
    ensures Replacements[7].value == "Jan" && Replacements[8].value == "Feb"
    ensures forall j :: 7 <= j <= 8 ==> Replacements[j].key[0] != '十'
  {
  }

  /** Because '一月' is applied before '十一月', November written as '十一月'
      becomes '十Jan', never 'Nov'. */
  lemma NovemberMisread(mid: string, tail: string)
    requires Ascii(mid) && Ascii(tail)
    ensures ConvertDate(mid + "十一月" + tail) == mid + "十" + "Jan" + tail
  {
    ReplacementsWellShaped();
    TwoDigitRowsOfReplacements();
    TwoDigitMonthIn(Replacements, 7, mid, tail);
  }

  /** Because '二月' is applied before '十二月', December written as '十二月'
      becomes '十Feb', never 'Dec'. */
  lemma DecemberMisread(mid: string, tail: string)
    requires Ascii(mid) && Ascii(tail)
    ensures ConvertDate(mid + "十二月" + tail) == mid + "十" + "Feb" + tail
  {
    ReplacementsWellShaped();
    TwoDigitRowsOfReplacements();
    TwoDigitMonthIn(Replacements, 8, mid, tail);
  }

  // ---------------------------------------------------------------------
  // A table order in which every row converts
  // ---------------------------------------------------------------------

  /** No key can match inside a later key: each earlier key has a character
      that the later key lacks. Under this order a token is never claimed by
      an earlier, shorter key. */
  predicate SafelyOrdered(T: seq<Replacement>) {
    forall j, r :: 0 <= j < r < |T| ==> MissingChar(T[r].key, T[j].key)
  }

  /** Every key is non-empty and made of characters outside ASCII. */
  predicate KeysNonAscii(T: seq<Replacement>) {
    forall j :: 0 <= j < |T| ==>
      |T[j].key| > 0 && forall c :: c in T[j].key ==> (c as int) >= 128
  }

  /** The declared table is not safely ordered: every character of '一月'
      (row 7) occurs in '十一月' (row 17). */
  lemma ReplacementsNotSafelyOrdered()
    ensures !SafelyOrdered(Replacements)
  {
    var key := Replacements[7].key;
    assert key == "一月" && Replacements[17].key == "十一月";
    assert key[0] in Replacements[17].key && key[1] in Replacements[17].key;
    assert !MissingChar(Replacements[17].key, key);
  }

  /** The table with '十一月' and '十二月' moved ahead of '一月' and '二月':
      the seven weekday rows, the rows of '十一月' and '十二月', then the rows
      of '一月' to '十月', each in declaration order. */
  const OrderedReplacements: seq<Replacement> := [
    Replacement("週日", "Sun"),
    Replacement("週一", "Mon"),
    Replacement("週二", "Tue"),
    Replacement("週三", "Wed"),
    Replacement("週四", "Thu"),
    Replacement("週五", "Fri"),
    Replacement("週六", "Sat"),
    Replacement("十一月", "Nov"),
    Replacement("十二月", "Dec"),
    Replacement("一月", "Jan"),
    Replacement("二月", "Feb"),
    Replacement("三月", "Mar"),
    Replacement("四月", "Apr"),
    Replacement("五月", "May"),
    Replacement("六月", "Jun"),
    Replacement("七月", "Jul"),
    Replacement("八月", "Aug"),
    Replacement("九月", "Sep"),
    Replacement("十月", "Oct")
  ]

  /** `convertDate` over the reordered table. */
  function ConvertDateOrdered(source: string): string {
    ApplyAll(OrderedReplacements, source)
  }

  /** The reordered table is the weekday rows, then rows 17 and 18, then
      rows 7 to 16 of the declared one. */
  lemma OrderedIsReordering()
    ensures OrderedReplacements == Replacements[..7] + Replacements[17..] + Replacements[7..17]
  {
    OrderedWeekdayRows();
    OrderedTwoDigitRows();
    OrderedOneDigitRows();
  }

  /** So it holds the same 19 rows as the declared one. */
  lemma OrderedIsPermutation()
    ensures multiset(OrderedReplacements) == multiset(Replacements)
  {
    var R := Replacements;
    OrderedIsReordering();
    assert R == R[..7] + R[7..17] + R[17..];
  }

  lemma OrderedWeekdayRows()
    ensures OrderedReplacements[..7] == Replacements[..7]
  {
  }

  lemma OrderedTwoDigitRows()
    ensures OrderedReplacements[7..9] == Replacements[17..]
  {
  }

  lemma OrderedOneDigitRows()
    ensures OrderedReplacements[9..] == Replacements[7..17]
  {
  }

  lemma OrderedKeysNonAscii()
    ensures KeysNonAscii(OrderedReplacements)
  {
  }

  lemma OrderedValuesAscii()
    ensures ValuesAscii(OrderedReplacements)
  {
  }

  lemma OrderedIsSafe()
    ensures SafelyOrdered(OrderedReplacements)
  {
    OrderedWeekdaysSafe();
    OrderedMonthsSafe();
  }

  /** Each weekday key has '週' or its distinguishing second character
      missing from every later key. */
  lemma OrderedWeekdaysSafe()
    ensures forall j, r :: 0 <= j < 7 && j < r < 19 ==>
      MissingChar(OrderedReplacements[r].key, OrderedReplacements[j].key)
  {
    var T := OrderedReplacements;
    OrderedWeekdaysDistinct();
    forall j, r | 0 <= j < 7 && 7 <= r < 19
      ensures MissingChar(T[r].key, T[j].key)
    {
      assert 0 < |T[j].key| && T[j].key[0] == '週' && '週' !in T[r].key;
    }
  }

  lemma OrderedWeekdaysDistinct()
    ensures forall j, r :: 0 <= j < r < 7 ==>
      MissingChar(OrderedReplacements[r].key, OrderedReplacements[j].key)
  {
    var T := OrderedReplacements;
    forall j, r | 0 <= j < r < 7
      ensures MissingChar(T[r].key, T[j].key)
    {
      assert 1 < |T[j].key| && T[j].key[1] !in T[r].key;
    }
  }

  /** Each month key has its first or second character missing from every
      later key. */
  lemma OrderedMonthsSafe()
    ensures forall j, r :: 7 <= j < r < 19 ==>
      MissingChar(OrderedReplacements[r].key, OrderedReplacements[j].key)
  {
    var T := OrderedReplacements;
    forall j, r | 7 <= j < r < 19
      ensures MissingChar(T[r].key, T[j].key)
    {
      if T[j].key[0] !in T[r].key {
        assert 0 < |T[j].key|;
      } else {
        assert 1 < |T[j].key| && T[j].key[1] !in T[r].key;
      }
    }
  }

  /** In any safely ordered table of non-ASCII keys and ASCII values, each
      row's token standing in ASCII text becomes that row's value. */
  lemma SafeRowConverted(T: seq<Replacement>, r: int, mid: string, tail: string)
    requires SafelyOrdered(T) && KeysNonAscii(T) && ValuesAscii(T)
    requires 0 <= r < |T| && Ascii(mid) && Ascii(tail)
    ensures ApplyAll(T, mid + T[r].key + tail) == mid + T[r].value + tail
  {
    var s0 := mid + T[r].key + tail;
    var s1 := mid + T[r].value + tail;
    ApplyAllSplit(T, r, s0);
    EarlierRowsMissing(T, r, mid, tail);
    ApplyAllMissing(T[..r], s0);
    RowAndLaterRows(T, r, mid, tail);
  }

  lemma EarlierRowsMissing(T: seq<Replacement>, r: int, mid: string, tail: string)
    requires SafelyOrdered(T) && KeysNonAscii(T)
    requires 0 <= r < |T| && Ascii(mid) && Ascii(tail)
    ensures forall j :: 0 <= j < |T[..r]| ==> MissingChar(mid + T[r].key + tail, T[..r][j].key)
  {
    var s0 := mid + T[r].key + tail;
    forall j | 0 <= j < |T[..r]|
      ensures MissingChar(s0, T[..r][j].key)
    {
      assert T[..r][j] == T[j];
      var k :| 0 <= k < |T[j].key| && T[j].key[k] !in T[r].key;
      assert T[j].key[k] in T[j].key;
      assert T[j].key[k] !in s0;
    }
  }

  lemma RowAndLaterRows(T: seq<Replacement>, r: int, mid: string, tail: string)
    requires KeysNonAscii(T) && ValuesAscii(T)
    requires 0 <= r < |T| && Ascii(mid) && Ascii(tail)
    ensures ApplyAll(T[r..], mid + T[r].key + tail) == mid + T[r].value + tail
  {
    var s1 := mid + T[r].value + tail;
    assert T[r].key[0] in T[r].key;
    ReplaceAfterPrefix(mid, T[r].key, tail, T[r].value);
    assert T[r..][0] == T[r] && T[r..][1..] == T[r + 1..];
    assert Ascii(s1);
    LaterRowsMissing(T, r, s1);
    ApplyAllMissing(T[r + 1..], s1);
  }

  lemma LaterRowsMissing(T: seq<Replacement>, r: int, s: string)
    requires KeysNonAscii(T) && 0 <= r < |T| && Ascii(s)
    ensures var U := T[r + 1..]; forall j :: 0 <= j < |U| ==> MissingChar(s, U[j].key)
  {
    var U := T[r + 1..];
    forall j | 0 <= j < |U|
      ensures MissingChar(s, U[j].key)
    {
      var key := T[r + 1 + j].key;
      assert U[j].key == key;
      assert key[0] in key;
    }
  }

  /** Under the reordered table every weekday and month token, '十一月' and
      '十二月' included, is rewritten to its own abbreviation. */
  lemma OrderedRowConverted(r: int, mid: string, tail: string)
    requires 0 <= r < |OrderedReplacements| && Ascii(mid) && Ascii(tail)
    ensures ConvertDateOrdered(mid + OrderedReplacements[r].key + tail) ==
      mid + OrderedReplacements[r].value + tail
  {
    OrderedIsSafe();
    OrderedKeysNonAscii();
    OrderedValuesAscii();
    SafeRowConverted(OrderedReplacements, r, mid, tail);
  }

  /** November and December are read correctly under the reordered table. */
  lemma OrderedNovemberAndDecember(mid: string, tail: string)
    requires Ascii(mid) && Ascii(tail)
    ensures ConvertDateOrdered(mid + "十一月" + tail) == mid + "Nov" + tail
    ensures ConvertDateOrdered(mid + "十二月" + tail) == mid + "Dec" + tail
  {
    OrderedRowConverted(7, mid, tail);
    OrderedRowConverted(8, mid, tail);
  }
}
