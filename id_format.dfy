/**
 * The string and number steps the `S###`, `NV###` and `DG###` id generators
 * are built from: `replace` of the first occurrence, `parseInt(…, 10)`,
 * `+ 1`, `String(…)`, `padStart(3, "0")`, and the descending string sort that
 * picks the "last" id. A NaN number is `None`.
 */
module IdFormat {
  import opened Wrappers

  predicate IsDigit(c: char) {
    '0' <= c <= '9'
  }

  predicate AllDigits(s: string) {
    forall k :: 0 <= k < |s| ==> IsDigit(s[k])
  }

  function DigitValue(c: char): nat
    requires IsDigit(c)
  {
    (c as int) - ('0' as int)
  }

  function DigitChar(d: nat): (c: char)
    requires d < 10
    ensures IsDigit(c) && DigitValue(c) == d
  {
    (('0' as int) + d) as char
  }

  /** The value of a run of decimal digits, most significant first. */
  function DigitsValue(s: string): nat
    requires AllDigits(s)
  {
    if s == [] then 0 else 10 * DigitsValue(s[..|s| - 1]) + DigitValue(s[|s| - 1])
  }

  /** `String(n)` for a non-negative integer: no leading zeros, "0" for zero. */
  function NatToString(n: nat): (s: string)
    ensures |s| >= 1 && AllDigits(s)
  {
    if n < 10 then [DigitChar(n)] else NatToString(n / 10) + [DigitChar(n % 10)]
  }

  /** `String(n)` for any integer below the exponent-notation range. */
  function IntToString(n: int): (s: string)
    ensures |s| >= 1 && (s[0] == '-' || IsDigit(s[0]))
  {
    if n < 0 then "-" + NatToString(-n) else NatToString(n)
  }

  /** `s.padStart(width, pad)`. */
  function PadStart(s: string, width: nat, pad: char): (r: string)
    ensures |r| == if |s| >= width then |s| else width
    ensures r[|r| - |s|..] == s
    ensures forall k :: 0 <= k < |r| - |s| ==> r[k] == pad
  {
    if |s| >= width then s else seq(width - |s|, _ => pad) + s
  }

  /** `String(v).padStart(3, "0")`, where a NaN prints as "NaN". */
  function Format3(v: Option<int>): (r: string)
    ensures |r| >= 3
    ensures v.None? <==> r == "NaN"
  {
    match v
    case None => "NaN"
    case Some(n) =>
      var digits := IntToString(n);
      var r := PadStart(digits, 3, '0');
      assert r[0] != 'N' by {
        if |digits| < 3 {
          assert r[0] == '0';
        } else {
          assert r == digits;
        }
      }
      r
  }

  /** `pat` occurs in `s` starting at position `i`. */
  predicate OccursAt(s: string, pat: string, i: int) {
    0 <= i && i + |pat| <= |s| && s[i..i + |pat|] == pat
  }

  /** `s.replace(pat, "")`: the first occurrence of `pat` removed, if there is one. */
  function ReplaceFirst(s: string, pat: string): (r: string)
    requires pat != []
    ensures |r| <= |s|
    ensures (forall i :: !OccursAt(s, pat, i)) ==> r == s
    ensures forall i :: OccursAt(s, pat, i) && (forall j :: 0 <= j < i ==> !OccursAt(s, pat, j)) ==>
              r == s[..i] + s[i + |pat|..]
    decreases |s|
  {
    if |s| < |pat| then s
    else if s[..|pat|] == pat then
      assert OccursAt(s, pat, 0);
      s[|pat|..]
    else
      var rest := ReplaceFirst(s[1..], pat);
      ReplaceFirstStep(s, pat, rest);
      [s[0]] + rest
  }

  /** Keeping a first character that does not start `pat` in front of the tail's result. */
  lemma ReplaceFirstStep(s: string, pat: string, rest: string)
    requires pat != [] && |s| >= |pat| && s[..|pat|] != pat
    requires (forall i :: !OccursAt(s[1..], pat, i)) ==> rest == s[1..]
    requires forall i :: OccursAt(s[1..], pat, i) && (forall j :: 0 <= j < i ==> !OccursAt(s[1..], pat, j)) ==>
               rest == s[1..][..i] + s[1..][i + |pat|..]
    ensures (forall i :: !OccursAt(s, pat, i)) ==> [s[0]] + rest == s
    ensures forall i :: OccursAt(s, pat, i) && (forall j :: 0 <= j < i ==> !OccursAt(s, pat, j)) ==>
              [s[0]] + rest == s[..i] + s[i + |pat|..]
  {
    if forall i :: !OccursAt(s, pat, i) {
      NoOccurrenceInTail(s, pat);
      assert s == [s[0]] + s[1..];
    }
    forall i | OccursAt(s, pat, i) && (forall j :: 0 <= j < i ==> !OccursAt(s, pat, j))
      ensures [s[0]] + rest == s[..i] + s[i + |pat|..]
    {
      FirstOccurrenceInTail(s, pat, i);
      SplitAtTail(s, pat, i);
    }
  }

  /** The first occurrence in `s`, past position 0, is the first occurrence in its tail, one position earlier. */
  lemma FirstOccurrenceInTail(s: string, pat: string, i: int)
    requires pat != [] && |s| >= |pat| && s[..|pat|] != pat
    requires OccursAt(s, pat, i) && (forall j :: 0 <= j < i ==> !OccursAt(s, pat, j))
    ensures i >= 1 && OccursAt(s[1..], pat, i - 1)
    ensures forall j :: 0 <= j < i - 1 ==> !OccursAt(s[1..], pat, j)
  {
    OccursAtTail(s, pat);
    assert !OccursAt(s, pat, 0);
    forall j | 0 <= j < i - 1
      ensures !OccursAt(s[1..], pat, j)
    {
      assert !OccursAt(s, pat, j + 1);
    }
  }

  lemma NoOccurrenceInTail(s: string, pat: string)
    requires s != [] && forall i :: !OccursAt(s, pat, i)
    ensures forall i :: !OccursAt(s[1..], pat, i)
  {
    OccursAtTail(s, pat);
  }

  lemma SplitAtTail(s: string, pat: string, i: int)
    requires 1 <= i && i + |pat| <= |s|
    ensures s[..i] == [s[0]] + s[1..][..i - 1]
    ensures s[i + |pat|..] == s[1..][i - 1 + |pat|..]
  {
  }

  /** An occurrence in the tail is an occurrence in the whole, one position later. */
  lemma OccursAtTail(s: string, pat: string)
    requires s != []
    ensures forall j :: OccursAt(s[1..], pat, j) <==> j >= 0 && OccursAt(s, pat, j + 1)
  {
    forall j | 0 <= j && j + 1 + |pat| <= |s|
      ensures OccursAt(s[1..], pat, j) <==> OccursAt(s, pat, j + 1)
    {
      assert s[1..][j..j + |pat|] == s[j + 1..j + 1 + |pat|];
    }
  }

  /** The white space `parseInt` skips (the ASCII ones, no-break space and the byte order mark). */
  predicate IsJsSpace(c: char) {
    c == ' ' || c == '\t' || c == '\n' || c == '\r' || c == '\U{B}' || c == '\U{C}' || c == '\U{A0}' || c == '\U{FEFF}'
  }

  function SkipSpace(s: string): (r: string)
    ensures |r| <= |s|
    ensures r == [] || !IsJsSpace(r[0])
    ensures r == s[|s| - |r|..]
    ensures forall k :: 0 <= k < |s| - |r| ==> IsJsSpace(s[k])
  {
    if s != [] && IsJsSpace(s[0]) then SkipSpace(s[1..]) else s
  }

  /** The longest prefix made of digits. */
  function LeadingDigits(s: string): (r: string)
    ensures AllDigits(r) && |r| <= |s| && r == s[..|r|]
    ensures AllDigits(s) ==> r == s
    ensures |r| < |s| ==> !IsDigit(s[|r|])
  {
    if s != [] && IsDigit(s[0]) then [s[0]] + LeadingDigits(s[1..]) else []
  }

  /** What `parseInt` reads after the white space: an optional sign, then at least one digit. */
  function ParseSigned(t: string): (r: Option<int>)
    ensures t == [] ==> r.None?
    ensures t != [] && AllDigits(t) ==> r == Some(DigitsValue(t))
    ensures t != [] && t[0] != '-' && t[0] != '+' && !IsDigit(t[0]) ==> r.None?
    ensures t != [] && t[0] == '-' && t[1..] != [] && AllDigits(t[1..]) ==> r == Some(-(DigitsValue(t[1..]) as int))
  {
    var negative := t != [] && t[0] == '-';
    var body := if t != [] && (t[0] == '-' || t[0] == '+') then t[1..] else t;
    var digits := LeadingDigits(body);
    if digits == [] then None
    else
      var v: int := DigitsValue(digits);
      Some(if negative then -v else v)
  }

  /** `parseInt(s, 10)`: spaces, an optional sign, then at least one digit; otherwise NaN. */
  function ParseInt(s: string): (r: Option<int>)
    ensures s == [] ==> r.None?
    ensures s != [] && AllDigits(s) ==> r == Some(DigitsValue(s))
    ensures s != [] && !IsJsSpace(s[0]) && s[0] != '-' && s[0] != '+' && !IsDigit(s[0]) ==> r.None?
  {
    ParseSigned(SkipSpace(s))
  }

  /** NaN + 1 is NaN. */
  function Increment(v: Option<int>): Option<int> {
    match v
    case None => None
    case Some(n) => Some(n + 1)
  }

  /**
   * The generator body shared by books, staff and readers: the first id when
   * there is no last document, else `prefix` followed by the padded number of
   * the last id (with `strip` removed) plus one.
   */
  function NextFromLast(last: Option<string>, strip: string, prefix: string, first: string): (r: string)
    requires strip != []
    ensures last.None? ==> r == first
    ensures last.Some? ==> |r| >= |prefix| + 3 && r[..|prefix|] == prefix
  {
    match last
    case None => first
    case Some(id) => prefix + Format3(Increment(ParseInt(ReplaceFirst(id, strip))))
  }

  /** An id in the documented format: the prefix followed by at least one digit. */
  predicate WellFormedId(prefix: string, id: string) {
    |id| > |prefix| && id[..|prefix|] == prefix && AllDigits(id[|prefix|..])
  }

  /** The number a well-formed id carries. */
  function IdNumber(prefix: string, id: string): nat
    requires WellFormedId(prefix, id)
  {
    DigitsValue(id[|prefix|..])
  }

  /** JavaScript's (and the database's) string order: code unit by code unit, a proper prefix first. */
  predicate LexLess(a: string, b: string)
    decreases |a|
  {
    if a == [] then b != []
    else if b == [] then false
    else if a[0] != b[0] then a[0] < b[0]
    else LexLess(a[1..], b[1..])
  }

  /** The id `findOne().sort({ id: -1 })` returns: the greatest in string order. */
  function GreatestId(ids: seq<string>): (r: Option<string>)
    ensures r.None? <==> ids == []
    ensures r.Some? ==> r.value in ids
    ensures r.Some? ==> forall k :: 0 <= k < |ids| ==> !LexLess(r.value, ids[k])
    decreases |ids|
  {
    if ids == [] then None
    else
      assert forall k :: 1 <= k < |ids| ==> ids[k] == ids[1..][k - 1];
      match GreatestId(ids[1..])
      case None =>
        LexLessIrreflexive(ids[0]);
        Some(ids[0])
      case Some(g) =>
        if LexLess(ids[0], g) then
          LexLessAsymmetric(ids[0], g);
          Some(g)
        else
          LexLessIrreflexive(ids[0]);
          forall k | 1 <= k < |ids|
            ensures !LexLess(ids[0], ids[k])
          {
            LexLessTotal(ids[0], g);
            if ids[0] != g && LexLess(ids[0], ids[k]) {
              LexLessTransitive(g, ids[0], ids[k]);
            }
          }
          Some(ids[0])
  }

  lemma {:induction false} LexLessIrreflexive(a: string)
    ensures !LexLess(a, a)
    decreases |a|
  {
    if a != [] {
      LexLessIrreflexive(a[1..]);
    }
  }

  lemma {:induction false} LexLessAsymmetric(a: string, b: string)
    requires LexLess(a, b)
    ensures !LexLess(b, a)
    decreases |a|
  {
    if a != [] && b != [] && a[0] == b[0] {
      LexLessAsymmetric(a[1..], b[1..]);
    }
  }

  /** String order is total: two different strings compare one way or the other. */
  lemma {:induction false} LexLessTotal(a: string, b: string)
    ensures a == b || LexLess(a, b) || LexLess(b, a)
    decreases |a|
  {
    if a != [] && b != [] && a[0] == b[0] {
      LexLessTotal(a[1..], b[1..]);
      if a[1..] == b[1..] {
        assert a == [a[0]] + a[1..] && b == [b[0]] + b[1..];
      }
    }
  }

  lemma {:induction false} LexLessTransitive(a: string, b: string, c: string)
    requires LexLess(a, b) && LexLess(b, c)
    ensures LexLess(a, c)
    decreases |a|
  {
    if a != [] && a[0] == b[0] && b[0] == c[0] {
      LexLessTransitive(a[1..], b[1..], c[1..]);
    }
  }

  /** The largest number carried by a well-formed id of the list, 0 when there is none. */
  function MaxIdNumber(prefix: string, ids: seq<string>): (m: nat)
    ensures forall k :: 0 <= k < |ids| && WellFormedId(prefix, ids[k]) ==> IdNumber(prefix, ids[k]) <= m
    ensures m == 0 || exists k :: 0 <= k < |ids| && WellFormedId(prefix, ids[k]) && IdNumber(prefix, ids[k]) == m
  {
    if ids == [] then 0
    else
      var rest := MaxIdNumber(prefix, ids[1..]);
      assert forall k :: 1 <= k < |ids| ==> ids[k] == ids[1..][k - 1];
      if WellFormedId(prefix, ids[0]) && IdNumber(prefix, ids[0]) > rest then IdNumber(prefix, ids[0]) else rest
  }

  /** The generator as evidently intended: one past the numerically largest existing id. */
  function NextFresh(prefix: string, ids: seq<string>): string {
    prefix + PadStart(NatToString(MaxIdNumber(prefix, ids) + 1), 3, '0')
  }

  // ---- lemmas ----

  lemma {:induction false} DigitsValueOfNatToString(n: nat)
    ensures DigitsValue(NatToString(n)) == n
  {
    if n >= 10 {
      var s := NatToString(n);
      assert s[..|s| - 1] == NatToString(n / 10);
      DigitsValueOfNatToString(n / 10);
    }
  }

  lemma {:induction false} DigitsValueLeadingZero(s: string)
    requires AllDigits(s)
    ensures AllDigits("0" + s) && DigitsValue("0" + s) == DigitsValue(s)
  {
    var t := "0" + s;
    if s != [] {
      assert t[..|t| - 1] == "0" + s[..|s| - 1];
      DigitsValueLeadingZero(s[..|s| - 1]);
    }
  }

  lemma {:induction false} DigitsValueLeadingZeros(z: nat, s: string)
    requires AllDigits(s)
    ensures AllDigits(seq(z, _ => '0') + s) && DigitsValue(seq(z, _ => '0') + s) == DigitsValue(s)
  {
    if z > 0 {
      var zs := seq(z - 1, _ => '0');
      DigitsValueLeadingZeros(z - 1, s);
      DigitsValueLeadingZero(zs + s);
      assert seq(z, _ => '0') + s == "0" + (zs + s);
    } else {
      assert seq(z, _ => '0') + s == s;
    }
  }

  /** Padding a number's digits with zeros keeps its value. */
  lemma PaddedNumberValue(n: nat)
    ensures AllDigits(PadStart(NatToString(n), 3, '0'))
    ensures DigitsValue(PadStart(NatToString(n), 3, '0')) == n
  {
    var s := NatToString(n);
    DigitsValueOfNatToString(n);
    if |s| < 3 {
      DigitsValueLeadingZeros(3 - |s|, s);
    }
  }

  /** `parseInt` reads back what `String` prints. */
  lemma ParseIntOfIntToString(n: int)
    ensures ParseInt(IntToString(n)) == Some(n)
  {
    if n < 0 {
      ParseIntOfNegativeString(n);
    } else {
      ParseIntOfNatString(n);
    }
  }

  lemma ParseIntOfNatString(n: nat)
    ensures ParseInt(IntToString(n)) == Some(n)
  {
    var d := NatToString(n);
    DigitsValueOfNatToString(n);
    assert ParseInt(d) == Some(DigitsValue(d));
  }

  lemma ParseIntOfNegativeString(n: int)
    requires n < 0
    ensures ParseInt(IntToString(n)) == Some(n)
  {
    var d := NatToString(-n);
    var v := DigitsValue(d);
    DigitsValueOfNatToString(-n);
    assert v == -n;
    ParseIntOfNegative(d);
    assert IntToString(n) == "-" + d;
  }

  /** A minus sign followed by digits reads as the negated value. */
  lemma ParseIntOfNegative(digits: string)
    requires digits != [] && AllDigits(digits)
    ensures ParseInt("-" + digits) == Some(-(DigitsValue(digits) as int))
  {
    SkipSpaceAtNonSpace("-" + digits);
    ParseSignedOfNegative(digits);
  }

  lemma SkipSpaceAtNonSpace(s: string)
    requires s != [] && !IsJsSpace(s[0])
    ensures SkipSpace(s) == s
  {
  }

  lemma ParseSignedOfNegative(digits: string)
    requires digits != [] && AllDigits(digits)
    ensures ParseSigned("-" + digits) == Some(-(DigitsValue(digits) as int))
  {
    assert ("-" + digits)[1..] == digits;
  }

  lemma ReplaceFirstAtStart(prefix: string, rest: string)
    requires prefix != []
    ensures ReplaceFirst(prefix + rest, prefix) == rest
  {
    var s := prefix + rest;
    assert s[..|prefix|] == prefix;
    assert s[|prefix|..] == rest;
  }

  /**
   * From a well-formed last id the generator yields a well-formed id in the
   * same format whose number is one more, so ids generated one after another
   * never repeat.
   */
  lemma NextFromLastIncrements(prefix: string, last: string)
    requires prefix != [] && WellFormedId(prefix, last)
    ensures WellFormedId(prefix, NextFromLast(Some(last), prefix, prefix, prefix + "001"))
    ensures IdNumber(prefix, NextFromLast(Some(last), prefix, prefix, prefix + "001")) == IdNumber(prefix, last) + 1
  {
    var m := IdNumber(prefix, last);
    ParseOfWellFormed(prefix, last);
    NextFromLastStep(last, prefix, prefix, prefix + "001", Some(m));
    PaddedIdWellFormed(prefix, m + 1);
  }

  /** Removing the prefix of a well-formed id leaves digits that parse as its number. */
  lemma ParseOfWellFormed(prefix: string, last: string)
    requires prefix != [] && WellFormedId(prefix, last)
    ensures ParseInt(ReplaceFirst(last, prefix)) == Some(IdNumber(prefix, last))
  {
    var digits := last[|prefix|..];
    assert last == prefix + digits;
    ReplaceFirstAtStart(prefix, digits);
  }

  /** The prefix followed by a padded number is a well-formed id carrying that number. */
  lemma PaddedIdWellFormed(prefix: string, n: nat)
    ensures WellFormedId(prefix, prefix + Format3(Some(n)))
    ensures IdNumber(prefix, prefix + Format3(Some(n))) == n
  {
    var padded := PadStart(NatToString(n), 3, '0');
    assert Format3(Some(n)) == padded;
    PaddedNumberValue(n);
    var next := prefix + padded;
    assert next[..|prefix|] == prefix && next[|prefix|..] == padded;
  }

  /** A last id whose remainder does not parse yields the prefix followed by "NaN", and only such an id does. */
  lemma NaNStaysNaN(last: string, strip: string, prefix: string, first: string)
    requires strip != []
    ensures ParseInt(ReplaceFirst(last, strip)).None? <==> NextFromLast(Some(last), strip, prefix, first) == prefix + "NaN"
  {
    var r := NextFromLast(Some(last), strip, prefix, first);
    assert r == prefix + Format3(Increment(ParseInt(ReplaceFirst(last, strip))));
    assert r[|prefix|..] == Format3(Increment(ParseInt(ReplaceFirst(last, strip))));
  }

  /** One generator step, read off the number parsed from the last id. */
  lemma NextFromLastStep(last: string, strip: string, prefix: string, first: string, v: Option<int>)
    requires strip != [] && ParseInt(ReplaceFirst(last, strip)) == v
    ensures NextFromLast(Some(last), strip, prefix, first) == prefix + Format3(Increment(v))
  {
  }

  /** The first id of an empty collection is well-formed with number 1. */
  lemma FirstIdWellFormed(prefix: string)
    ensures WellFormedId(prefix, prefix + "001") && IdNumber(prefix, prefix + "001") == 1
  {
    var id := prefix + "001";
    assert id[..|prefix|] == prefix && id[|prefix|..] == "001";
    assert "001"[..2] == "00" && "00"[..1] == "0" && "0"[..0] == "";
    assert DigitsValue("0") == 0;
    assert DigitsValue("00") == 0;
  }

  /** The corrected generator never repeats an existing well-formed id. */
  lemma NextFreshIsFresh(prefix: string, ids: seq<string>)
    ensures WellFormedId(prefix, NextFresh(prefix, ids))
    ensures IdNumber(prefix, NextFresh(prefix, ids)) == MaxIdNumber(prefix, ids) + 1
    ensures NextFresh(prefix, ids) !in ids
  {
    var m := MaxIdNumber(prefix, ids);
    var padded := PadStart(NatToString(m + 1), 3, '0');
    PaddedNumberValue(m + 1);
    var next := prefix + padded;
    assert next[..|prefix|] == prefix && next[|prefix|..] == padded;
    forall k | 0 <= k < |ids| && WellFormedId(prefix, ids[k])
      ensures ids[k] != next
    {
      assert IdNumber(prefix, ids[k]) <= m;
    }
  }

  /** With no existing id the corrected generator starts where the original does. */
  lemma NextFreshOfEmpty(prefix: string)
    ensures NextFresh(prefix, []) == prefix + "001"
  {
    assert NatToString(1) == "1";
    assert PadStart("1", 3, '0') == "001";
  }
}
