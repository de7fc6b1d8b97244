/** The Go string and number helpers the command loop relies on:
    strings.TrimSpace, strings.Fields, strings.Join, strconv.Itoa,
    strconv.Atoi (with its error discarded) and the uint(...) conversion. */
module Text {
  import opened Wrappers

  /** unicode.IsSpace: the Latin-1 blanks and the Unicode White_Space property. */
  predicate IsSpace(c: char) {
    || c == ' ' || c == '\t' || c == '\n' || c == '\r'
    || c == '\U{000B}' || c == '\U{000C}' || c == '\U{0085}' || c == '\U{00A0}'
    || c == '\U{1680}' || ('\U{2000}' <= c <= '\U{200A}')
    || c == '\U{2028}' || c == '\U{2029}' || c == '\U{202F}' || c == '\U{205F}'
    || c == '\U{3000}'
  }

  predicate Blank(s: string) {
    forall i :: 0 <= i < |s| ==> IsSpace(s[i])
  }

  predicate NoSpace(s: string) {
    forall i :: 0 <= i < |s| ==> !IsSpace(s[i])
  }

  // ---------- strings.TrimSpace ----------

  /** r is what is left of s once its first i characters and everything after
      i + |r| are cut off, and everything cut off is white space. */
  predicate TrimmedAt(s: string, r: string, i: int) {
    && 0 <= i <= |s| - |r| && s[i..i + |r|] == r
    && (forall j :: 0 <= j < i ==> IsSpace(s[j]))
    && (forall j :: i + |r| <= j < |s| ==> IsSpace(s[j]))
  }

  function TrimLeft(s: string): (r: string)
    ensures TrimmedAt(s, r, |s| - |r|)
    ensures r == [] || !IsSpace(r[0])
    decreases |s|
  {
    if s != [] && IsSpace(s[0]) then
      var r := TrimLeft(s[1..]);
      TrimmedBehindSpace(s, r, |s| - 1 - |r|);
      r
    else s
  }

  function TrimRight(s: string): (r: string)
    ensures TrimmedAt(s, r, 0)
    ensures r == [] || !IsSpace(r[|r| - 1])
    decreases |s|
  {
    if s != [] && IsSpace(s[|s| - 1]) then
      var r := TrimRight(s[..|s| - 1]);
      TrimmedBeforeSpace(s, r);
      r
    else s
  }

  /** A trim of what follows a leading space is a trim of the whole. */
  lemma TrimmedBehindSpace(s: string, r: string, i: int)
    requires s != [] && IsSpace(s[0]) && TrimmedAt(s[1..], r, i)
    ensures TrimmedAt(s, r, i + 1)
  {
    forall j | 0 <= j < |r|
      ensures s[i + 1..i + 1 + |r|][j] == r[j]
    {
      assert r[j] == s[1..][i + j];
    }
    assert forall j :: 0 < j < i + 1 ==> s[j] == s[1..][j - 1];
    assert forall j :: i + 1 + |r| <= j < |s| ==> s[j] == s[1..][j - 1];
  }

  /** A trim of what precedes a trailing space is a trim of the whole. */
  lemma TrimmedBeforeSpace(s: string, r: string)
    requires s != [] && IsSpace(s[|s| - 1]) && TrimmedAt(s[..|s| - 1], r, 0)
    ensures TrimmedAt(s, r, 0)
  {
    forall j | 0 <= j < |r|
      ensures s[0..|r|][j] == r[j]
    {
      assert r[j] == s[..|s| - 1][j];
    }
    assert forall j :: |r| <= j < |s| - 1 ==> s[j] == s[..|s| - 1][j];
  }

  /** Cutting twice is cutting once: a trim of a trim of s is a trim of s. */
  lemma TrimmedTwice(s: string, t: string, i: int, r: string, k: int)
    requires TrimmedAt(s, t, i) && TrimmedAt(t, r, k)
    ensures TrimmedAt(s, r, i + k)
  {
    assert t == s[i..i + |t|];
    forall j | 0 <= j < |r|
      ensures s[i + k..i + k + |r|][j] == r[j]
    {
      assert r[j] == t[k + j];
    }
    assert forall j :: i <= j < i + k ==> s[j] == t[j - i];
    assert forall j :: i + k + |r| <= j < i + |t| ==> s[j] == t[j - i];
  }

  /** strings.TrimSpace: the line with its leading and trailing white space cut
      off; it is empty exactly when the whole line is white space. */
  function TrimSpace(s: string): (r: string)
    ensures r == [] <==> Blank(s)
    ensures r != [] ==> !IsSpace(r[0]) && !IsSpace(r[|r| - 1])
    ensures exists i :: TrimmedAt(s, r, i)
  {
    var t := TrimLeft(s);
    var r := TrimRight(t);
    TrimBoth(s, t, r);
    r
  }

  /** Trimming the left, then the right, leaves the non-blank middle. */
  lemma TrimBoth(s: string, t: string, r: string)
    requires TrimmedAt(s, t, |s| - |t|) && (t == [] || !IsSpace(t[0]))
    requires TrimmedAt(t, r, 0) && (r == [] || !IsSpace(r[|r| - 1]))
    ensures TrimmedAt(s, r, |s| - |t|)
    ensures r == [] <==> Blank(s)
    ensures r != [] ==> !IsSpace(r[0])
  {
    var i := |s| - |t|;
    TrimmedTwice(s, t, i, r, 0);
    if r != [] {
      assert r[0] == t[0] == s[i];
    }
  }


  // ---------- strings.Fields ----------

  /** A prefix of a + b no longer than a is a prefix of a. */
  lemma PrefixOfAppend(a: string, b: string, n: nat)
    requires n <= |a|
    ensures (a + b)[..n] == a[..n]
  {
  }

  /** The longest prefix of s that holds no white space. */
  function Word(s: string): (w: string)
    ensures |w| <= |s| && w == s[..|w|] && NoSpace(w)
    ensures |w| == |s| || IsSpace(s[|w|])
    decreases |s|
  {
    if s == [] || IsSpace(s[0]) then [] else [s[0]] + Word(s[1..])
  }

  /** strings.Fields: the maximal runs of non-space characters, in order. */
  function Fields(s: string): (r: seq<string>)
    ensures forall i :: 0 <= i < |r| ==> r[i] != [] && NoSpace(r[i])
    decreases |s|
  {
    if s == [] then []
    else if IsSpace(s[0]) then Fields(s[1..])
    else
      var w := Word(s);
      [w] + Fields(s[|w|..])
  }

  /** strings.Join: the words in order with sep between neighbours; the result
      starts with the first word, and by JoinEndsWithLast ends with the last. */
  function Join(ws: seq<string>, sep: string): (r: string)
    ensures ws == [] ==> r == []
    ensures ws != [] ==> |ws[0]| <= |r| && r[..|ws[0]|] == ws[0]
    decreases |ws|
  {
    if ws == [] then ""
    else if |ws| == 1 then ws[0]
    else ws[0] + sep + Join(ws[1..], sep)
  }

  lemma {:induction false} JoinEndsWithLast(ws: seq<string>, sep: string)
    requires ws != []
    ensures |ws[|ws| - 1]| <= |Join(ws, sep)|
    ensures Join(ws, sep)[|Join(ws, sep)| - |ws[|ws| - 1]|..] == ws[|ws| - 1]
    decreases |ws|
  {
    if |ws| > 1 {
      var last, rest := ws[|ws| - 1], Join(ws[1..], sep);
      JoinEndsWithLast(ws[1..], sep);
      assert ws[1..][|ws[1..]| - 1] == last;
      var r := ws[0] + sep + rest;
      assert r[|r| - |last|..] == rest[|rest| - |last|..];
    }
  }

  lemma {:induction false} FieldsEmptyIffBlank(s: string)
    ensures Fields(s) == [] <==> Blank(s)
    decreases |s|
  {
    if s != [] && IsSpace(s[0]) {
      FieldsEmptyIffBlank(s[1..]);
      assert s == [s[0]] + s[1..];
    }
  }

  lemma {:induction false} WordOfNoSpace(w: string)
    requires NoSpace(w)
    ensures Word(w) == w
  {
  }

  /** A non-empty run without white space is a single field. */
  lemma FieldsOfWord(w: string)
    requires w != [] && NoSpace(w)
    ensures Fields(w) == [w]
  {
    WordOfNoSpace(w);
    assert w[|w|..] == [];
  }

  /** Leading white space contributes no field. */
  lemma {:induction false} FieldsBlankPrefix(gap: string, b: string)
    requires Blank(gap)
    ensures Fields(gap + b) == Fields(b)
    decreases |gap|
  {
    if gap != [] {
      assert (gap + b)[1..] == gap[1..] + b;
      FieldsBlankPrefix(gap[1..], b);
    } else {
      assert gap + b == b;
    }
  }

  /** A run of white space separates the fields on its two sides: together with
      FieldsEmptyIffBlank and FieldsOfWord this fixes Fields on every string. */
  lemma {:induction false} FieldsSplit(a: string, gap: string, b: string)
    requires gap != [] && Blank(gap)
    ensures Fields(a + gap + b) == Fields(a) + Fields(b)
    decreases |a|
  {
    var c := gap + b;
    assert a + gap + b == a + c;
    if a == [] {
      assert a + c == c;
      FieldsBlankPrefix(gap, b);
    } else if IsSpace(a[0]) {
      FieldsSpaceStep(a, c);
      FieldsSplit(a[1..], gap, b);
      assert a[1..] + c == a[1..] + gap + b;
    } else {
      FieldsWordStep(a, c);
      var w := Word(a);
      var rest := a[|w|..];
      FieldsSplit(rest, gap, b);
      assert rest + c == rest + gap + b;
      assert Fields(a + c) == [w] + (Fields(rest) + Fields(b));
      assert Fields(a) + Fields(b) == ([w] + Fields(rest)) + Fields(b);
    }
  }


  /** Leading white space is skipped, whatever comes after it. */
  lemma {:induction false} FieldsSpaceStep(a: string, c: string)
    requires a != [] && IsSpace(a[0])
    ensures Fields(a + c) == Fields(a[1..] + c) && Fields(a) == Fields(a[1..])
  {
    assert (a + c)[0] == a[0];
    assert (a + c)[1..] == a[1..] + c;
  }

  /** A word followed by white space (or nothing) is the first field, whatever
      comes after it. */
  lemma {:induction false} FieldsWordStep(a: string, c: string)
    requires a != [] && !IsSpace(a[0]) && (c == [] || IsSpace(c[0]))
    ensures var w := Word(a);
      && Fields(a + c) == [w] + Fields(a[|w|..] + c)
      && Fields(a) == [w] + Fields(a[|w|..])
  {
    WordPrefix(a, c);
    var w := Word(a);
    assert (a + c)[0] == a[0];
    assert (a + c)[|w|..] == a[|w|..] + c;
  }

  /** Appending text that starts with white space does not change the first word. */
  lemma {:induction false} WordPrefix(a: string, b: string)
    requires b == [] || IsSpace(b[0])
    ensures Word(a + b) == Word(a)
    decreases |a|
  {
    if a != [] && !IsSpace(a[0]) {
      WordPrefix(a[1..], b);
      assert (a + b)[1..] == a[1..] + b;
    }
  }

  lemma {:induction false} FieldsTrimLeft(s: string)
    ensures Fields(TrimLeft(s)) == Fields(s)
    decreases |s|
  {
    if s != [] && IsSpace(s[0]) {
      FieldsTrimLeft(s[1..]);
    }
  }

  /** Trailing white space contributes no field. */
  lemma {:induction false} FieldsAppendBlank(a: string, b: string)
    requires Blank(b)
    ensures Fields(a + b) == Fields(a)
    decreases |a|
  {
    if a == [] {
      assert a + b == b;
      FieldsEmptyIffBlank(b);
    } else if IsSpace(a[0]) {
      assert (a + b)[1..] == a[1..] + b;
      FieldsAppendBlank(a[1..], b);
    } else {
      WordPrefix(a, b);
      var w := Word(a);
      assert (a + b)[|w|..] == a[|w|..] + b;
      FieldsAppendBlank(a[|w|..], b);
    }
  }

  /** Trimming the line first does not change how it splits into fields. */
  lemma FieldsTrim(s: string)
    ensures Fields(TrimSpace(s)) == Fields(s)
  {
    FieldsTrimLeft(s);
    var t := TrimLeft(s);
    TrimRightTail(t);
    var r := TrimRight(t);
    FieldsAppendBlank(r, t[|r|..]);
  }

  /** What TrimRight cuts off is a blank tail. */
  lemma TrimRightTail(t: string)
    ensures var r := TrimRight(t); t == r + t[|r|..] && Blank(t[|r|..])
  {
    var r := TrimRight(t);
    var tail := t[|r|..];
    assert forall j :: 0 <= j < |tail| ==> tail[j] == t[|r| + j];
  }

  /** Joining non-empty, space-free words with single spaces and splitting the
      result again gives back the same words. */
  lemma {:induction false} FieldsOfJoin(ws: seq<string>)
    requires forall i :: 0 <= i < |ws| ==> ws[i] != [] && NoSpace(ws[i])
    ensures Fields(Join(ws, " ")) == ws
    decreases |ws|
  {
    if |ws| == 1 {
      WordOfNoSpace(ws[0]);
      assert ws[0][|ws[0]|..] == [];
    } else if |ws| > 1 {
      var w, rest := ws[0], Join(ws[1..], " ");
      WordOfNoSpace(w);
      WordPrefix(w, " " + rest);
      assert Join(ws, " ") == w + (" " + rest);
      assert (w + (" " + rest))[|w|..] == " " + rest;
      assert (" " + rest)[1..] == rest;
      FieldsOfJoin(ws[1..]);
      assert ws == [w] + ws[1..];
    }
  }

  // ---------- decimal numbers ----------

  predicate IsDigit(c: char) {
    '0' <= c <= '9'
  }

  predicate IsDigits(s: string) {
    s != [] && forall i :: 0 <= i < |s| ==> IsDigit(s[i])
  }

  function DigitsValue(s: string): nat
    requires forall i :: 0 <= i < |s| ==> IsDigit(s[i])
    decreases |s|
  {
    if s == [] then 0
    else
      var last := s[|s| - 1];
      assert IsDigit(last);
      10 * DigitsValue(s[..|s| - 1]) + (last as int - '0' as int)
  }

  function DigitChar(d: nat): (c: char)
    requires d < 10
    ensures IsDigit(c) && c as int - '0' as int == d
  {
    ('0' as int + d) as char
  }

  /** The decimal digits of n, most significant first, without leading zeros. */
  function NatToString(n: nat): (s: string)
    ensures IsDigits(s)
    decreases n
  {
    if n < 10 then [DigitChar(n)] else NatToString(n / 10) + [DigitChar(n % 10)]
  }

  /** strconv.Itoa, which is also what the %d verb prints. */
  function Itoa(n: int): (r: string)
    ensures NoSpace(r)
    ensures n >= 0 ==> IsDigits(r)
    ensures n < 0 ==> |r| > 1 && r[0] == '-' && IsDigits(r[1..])
  {
    if n < 0 then "-" + NatToString(-n) else NatToString(n)
  }

  /** The syntax strconv.ParseInt accepts in base 10: an optional sign and one or
      more decimal digits; the value is not yet limited to 64 bits. */
  function ParseInt(s: string): Option<int>
  {
    if IsDigits(s) then Some(DigitsValue(s))
    else if s != [] && s[0] == '+' && IsDigits(s[1..]) then Some(DigitsValue(s[1..]))
    else if s != [] && s[0] == '-' && IsDigits(s[1..]) then Some(-(DigitsValue(s[1..]) as int))
    else None
  }

  const MinInt64: int := -0x8000_0000_0000_0000
  const MaxInt64: int := 0x7fff_ffff_ffff_ffff
  const TwoTo64: int := 0x1_0000_0000_0000_0000

  /** strconv.Atoi on a 64-bit platform with its error thrown away: text that is
      not an integer gives 0, an integer outside the int range gives the nearest
      bound, any other integer gives its value. */
  function Atoi(s: string): (n: int)
    ensures MinInt64 <= n <= MaxInt64
    ensures ParseInt(s).None? ==> n == 0
    ensures ParseInt(s).Some? && MinInt64 <= ParseInt(s).value <= MaxInt64 ==> n == ParseInt(s).value
    ensures ParseInt(s).Some? && ParseInt(s).value < MinInt64 ==> n == MinInt64
    ensures ParseInt(s).Some? && ParseInt(s).value > MaxInt64 ==> n == MaxInt64
  {
    match ParseInt(s)
    case None => 0
    case Some(v) => if v < MinInt64 then MinInt64 else if v > MaxInt64 then MaxInt64 else v
  }

  /** Go's uint(n) for a 64-bit int: the value congruent to n modulo 2^64. */
  function ToUint(n: int): (u: nat)
    requires MinInt64 <= n <= MaxInt64
    ensures u < TwoTo64 && (u - n) % TwoTo64 == 0
    ensures n >= 0 ==> u == n
  {
    if n < 0 then n + TwoTo64 else n
  }

  lemma {:induction false} NatToStringValue(n: nat)
    ensures DigitsValue(NatToString(n)) == n
    decreases n
  {
    if n >= 10 {
      var s := NatToString(n / 10);
      NatToStringValue(n / 10);
      assert (s + [DigitChar(n % 10)])[..|s|] == s;
    }
  }

  /** Printing an integer with %d and parsing it back gives the same integer. */
  lemma ParseIntItoa(n: int)
    ensures ParseInt(Itoa(n)) == Some(n)
  {
    if n < 0 {
      NatToStringValue(-n);
      var s := Itoa(n);
      assert s[0] == '-' && !IsDigit(s[0]);
      assert s[1..] == NatToString(-n);
    } else {
      NatToStringValue(n);
    }
  }

  /** Every int the bot can print is read back by Atoi unchanged. */
  lemma AtoiItoa(n: int)
    requires MinInt64 <= n <= MaxInt64
    ensures Atoi(Itoa(n)) == n
  {
    ParseIntItoa(n);
  }
}
