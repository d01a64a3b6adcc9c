/** The string operations the parser relies on: Python's `str.strip()`,
    `int(text)`, `str(n)` and `sep.join(items)`. */
module Text {
  import opened Wrappers

  /** Python's `str.isspace()` for one character: the ASCII controls
      TAB..CR, the separators 0x1C..0x1F, SPACE, NEL, NO-BREAK SPACE and the
      Unicode space separators. */
  predicate IsSpace(c: char)
  {
    var n := c as int;
    (0x09 <= n <= 0x0D) || (0x1C <= n <= 0x20) || n == 0x85 || n == 0xA0 ||
    n == 0x1680 || (0x2000 <= n <= 0x200A) || n == 0x2028 || n == 0x2029 ||
    n == 0x202F || n == 0x205F || n == 0x3000
  }

  /** The two whitespace sets stripped from text: `str.strip()` drops
      every `str.isspace()` character; `int()` drops the ASCII ones TAB..CR
      and SPACE and every non-ASCII one, but not the separators 0x1C..0x1F. */
  datatype Blanks = StripBlanks | IntBlanks

  predicate IsBlank(b: Blanks, c: char)
  {
    IsSpace(c) && (b == IntBlanks ==> !(0x1C <= c as int <= 0x1F))
  }

  /** Drops the leading blanks of `s`. */
  function TrimStart(b: Blanks, s: string): (r: string)
    ensures |r| <= |s| && r == s[|s| - |r|..]
    ensures r == [] || !IsBlank(b, r[0])
    ensures forall i :: 0 <= i < |s| - |r| ==> IsBlank(b, s[i])
  {
    if s != [] && IsBlank(b, s[0]) then TrimStart(b, s[1..]) else s
  }

  /** Drops the trailing blanks of `s`. */
  function TrimEnd(b: Blanks, s: string): (r: string)
    ensures |r| <= |s| && r == s[..|r|]
    ensures r == [] || !IsBlank(b, r[|r| - 1])
    ensures forall i :: |r| <= i < |s| ==> IsBlank(b, s[i])
  {
    if s != [] && IsBlank(b, s[|s| - 1]) then TrimEnd(b, s[..|s| - 1]) else s
  }

  /** Python's `s.strip()`. */
  function Trim(s: string): (r: string)
    ensures r == [] || (!IsSpace(r[0]) && !IsSpace(r[|r| - 1]))
  {
    TrimEnd(StripBlanks, TrimStart(StripBlanks, s))
  }

  /** Stripping cuts away whitespace only: the result keeps every other
      character of `s` and adds none, and it is empty exactly when `s` is
      all whitespace. */
  lemma TrimKeepsContent(s: string)
    ensures forall c :: c in Trim(s) ==> c in s
    ensures forall c :: c in s && !IsSpace(c) ==> c in Trim(s)
    ensures (forall c :: c in s ==> IsSpace(c)) <==> Trim(s) == []
  {
    TrimStartKeeps(StripBlanks, s);
    TrimEndKeeps(StripBlanks, TrimStart(StripBlanks, s));
  }

  /** `s.strip()` is the middle of `s`: a slice with only whitespace
      before it and only whitespace after it. */
  lemma TrimIsMiddle(s: string)
    ensures exists i, j ::
      (0 <= i <= j <= |s| && Trim(s) == s[i..j] &&
       (forall k :: 0 <= k < i ==> IsSpace(s[k])) &&
       (forall k :: j <= k < |s| ==> IsSpace(s[k])))
  {
    var i := TrimFrom(s);
    var j := i + |Trim(s)|;
    TrimSlice(s);
    SpaceBeforeTrim(s);
    SpaceAfterTrim(s);
    assert 0 <= i <= j <= |s| && Trim(s) == s[i..j];
  }

  /** Where the stripped text starts in `s`. */
  function TrimFrom(s: string): (i: nat)
    ensures i <= |s|
  {
    |s| - |TrimStart(StripBlanks, s)|
  }

  lemma TrimSlice(s: string)
    ensures TrimFrom(s) + |Trim(s)| <= |s|
    ensures Trim(s) == s[TrimFrom(s)..TrimFrom(s) + |Trim(s)|]
  {
    var t := TrimStart(StripBlanks, s);
    var i := TrimFrom(s);
    assert t == s[i..];
    assert Trim(s) == t[..|Trim(s)|];
  }

  lemma SpaceBeforeTrim(s: string)
    ensures forall k :: 0 <= k < TrimFrom(s) ==> IsSpace(s[k])
  {
    forall k | 0 <= k < TrimFrom(s) ensures IsSpace(s[k]) {
      assert IsBlank(StripBlanks, s[k]);
    }
  }

  lemma SpaceAfterTrim(s: string)
    ensures forall k :: TrimFrom(s) + |Trim(s)| <= k < |s| ==> IsSpace(s[k])
  {
    var t := TrimStart(StripBlanks, s);
    assert t == s[TrimFrom(s)..];
    assert forall k :: |Trim(s)| <= k < |t| ==> IsBlank(StripBlanks, t[k]);
    ShiftBlanks(s, TrimFrom(s), t, |Trim(s)|);
  }

  /** Blanks at the end of a suffix `t == s[i..]` sit at the end of `s`. */
  lemma ShiftBlanks(s: string, i: nat, t: string, m: nat)
    requires i <= |s| && t == s[i..] && m <= |t|
    requires forall k :: m <= k < |t| ==> IsBlank(StripBlanks, t[k])
    ensures forall k :: i + m <= k < |s| ==> IsSpace(s[k])
  {
    forall k | i + m <= k < |s| ensures IsSpace(s[k]) {
      assert t[k - i] == s[k];
      assert IsBlank(StripBlanks, t[k - i]);
    }
  }

  lemma {:induction false} TrimStartKeeps(b: Blanks, s: string)
    ensures forall c :: c in TrimStart(b, s) ==> c in s
    ensures forall c :: c in s && !IsBlank(b, c) ==> c in TrimStart(b, s)
  {
    if s != [] && IsBlank(b, s[0]) {
      TrimStartKeeps(b, s[1..]);
      assert forall c :: c in s ==> c == s[0] || c in s[1..];
    }
  }

  lemma {:induction false} TrimEndKeeps(b: Blanks, s: string)
    ensures forall c :: c in TrimEnd(b, s) ==> c in s
    ensures forall c :: c in s && !IsBlank(b, c) ==> c in TrimEnd(b, s)
  {
    if s != [] && IsBlank(b, s[|s| - 1]) {
      var init := s[..|s| - 1];
      TrimEndKeeps(b, init);
      assert forall c :: c in s ==> c == s[|s| - 1] || c in init;
    }
  }

  /** Stripping twice is the same as stripping once. */
  lemma TrimIdempotent(s: string)
    ensures Trim(Trim(s)) == Trim(s)
  {
    var r := Trim(s);
    assert TrimStart(StripBlanks, r) == r;
    assert TrimEnd(StripBlanks, r) == r;
  }

  predicate IsDigit(c: char)
  {
    '0' <= c <= '9'
  }

  predicate AllDigits(s: string)
  {
    forall i :: 0 <= i < |s| ==> IsDigit(s[i])
  }

  /** The value of a string of decimal digits, most significant first. */
  function DigitsValue(s: string): nat
    requires AllDigits(s)
  {
    if s == [] then 0
    else 10 * DigitsValue(s[..|s| - 1]) + ((s[|s| - 1] as int) - ('0' as int))
  }

  /** Python's `int(text)` for base-10 text: surrounding `IntBlanks`
      whitespace is ignored, then an optional `+` or `-` sign and one or more ASCII digits
      must make up the rest; anything else is a `ValueError`, here `None`. */
  function ParseInt(s: string): Option<int>
  {
    ParseSigned(TrimEnd(IntBlanks, TrimStart(IntBlanks, s)))
  }

  /** An optional sign followed by digits. */
  function ParseSigned(t: string): Option<int>
  {
    if t == [] then None
    else if t[0] == '-' then
      match ParseDigitRun(t[1..])
      case Some(v) => Some(-v)
      case None => None
    else if t[0] == '+' then ParseDigitRun(t[1..])
    else ParseDigitRun(t)
  }

  /** One or more digits. */
  function ParseDigitRun(ds: string): Option<int>
  {
    if ds != [] && AllDigits(ds) then Some(DigitsValue(ds)) else None
  }

  /** Python's `str(n)` for a non-negative integer. */
  function NatToString(n: nat): (r: string)
    ensures r != [] && AllDigits(r)
    ensures DigitsValue(r) == n
    decreases n
  {
    var d := ['0' + ((n % 10) as char)];
    if n < 10 then d
    else
      var p := NatToString(n / 10);
      assert (p + d)[..|p + d| - 1] == p;
      p + d
  }

  /** Python's `str(n)` for an integer. */
  function IntToString(n: int): string
  {
    if n < 0 then "-" + NatToString(-n) else NatToString(n)
  }

  /** Text that `int()` accepts holds at least one decimal digit: a cell
      holding a label, a blank or only a sign is never a score. */
  lemma ParseIntNeedsDigit(s: string)
    requires ParseInt(s).Some?
    ensures exists i :: 0 <= i < |s| && IsDigit(s[i])
  {
    var t0 := TrimStart(IntBlanks, s);
    var t := TrimEnd(IntBlanks, t0);
    var k := if t[0] == '-' || t[0] == '+' then 1 else 0;
    assert ParseDigitRun(t[k..]).Some?;
    var c := t[k];
    assert IsDigit(c) && c in t;
    TrimEndKeeps(IntBlanks, t0);
    TrimStartKeeps(IntBlanks, s);
  }

  /** Whatever `str(n)` prints, `int()` reads back as `n`. */
  lemma ParseIntRoundTrip(n: int)
    ensures ParseInt(IntToString(n)) == Some(n)
  {
    var s := IntToString(n);
    IntToStringEnds(n);
    StripUntouched(IntBlanks, s);
    SignedRoundTrip(n);
  }

  lemma SignedRoundTrip(n: int)
    ensures ParseSigned(IntToString(n)) == Some(n)
  {
    var m: nat := if n < 0 then -n else n;
    var ds := NatToString(m);
    var s := IntToString(n);
    assert ParseDigitRun(ds) == Some(m);
    if n < 0 {
      assert s[0] == '-' && s[1..] == ds;
    } else {
      assert s == ds && IsDigit(s[0]);
    }
  }

  /** `str(n)` starts with a sign or a digit and ends with a digit. */
  lemma IntToStringEnds(n: int)
    ensures var s := IntToString(n);
      s != [] && !IsBlank(IntBlanks, s[0]) && !IsBlank(IntBlanks, s[|s| - 1])
  {
    var m: nat := if n < 0 then -n else n;
    var ds := NatToString(m);
    var s := IntToString(n);
    assert s[|s| - 1] == ds[|ds| - 1];
    DigitNotBlank(ds[|ds| - 1]);
    if n >= 0 {
      DigitNotBlank(s[0]);
    }
  }

  lemma DigitNotBlank(c: char)
    requires IsDigit(c)
    ensures !IsBlank(IntBlanks, c)
  {
  }

  /** Text that neither starts nor ends with a blank is left as it is. */
  lemma StripUntouched(b: Blanks, s: string)
    requires s != [] && !IsBlank(b, s[0]) && !IsBlank(b, s[|s| - 1])
    ensures TrimEnd(b, TrimStart(b, s)) == s
  {
    assert TrimStart(b, s) == s;
    TrimEndUntouched(b, s);
  }

  lemma TrimEndUntouched(b: Blanks, s: string)
    requires s != [] && !IsBlank(b, s[|s| - 1])
    ensures TrimEnd(b, s) == s
  {
  }


  /** `int()` skips ASCII whitespace around a number: `int(" " + str(n) +
      "\n") == n`. */
  lemma IntSkipsAsciiBlanks(n: int)
    ensures ParseInt(" " + IntToString(n) + "\n") == Some(n)
  {
    IntToStringEnds(n);
    var s := IntToString(n);
    assert " " + s + "\n" == " " + (s + "\n");
    PaddedStrip(s, s + "\n", " " + (s + "\n"));
    SignedRoundTrip(n);
  }

  /** A space before and a newline after text with no blank at either
      end are what `int()` strips. */
  lemma PaddedStrip(s: string, w: string, p: string)
    requires s != [] && !IsBlank(IntBlanks, s[0]) && !IsBlank(IntBlanks, s[|s| - 1])
    requires w == s + "\n" && p == " " + w
    ensures TrimEnd(IntBlanks, TrimStart(IntBlanks, p)) == s
  {
    LeadingSpaceStripped(w);
    NewlineKept(s);
    TrimEndSnoc(IntBlanks, s, '\n');
    TrimEndUntouched(IntBlanks, s);
  }

  lemma LeadingSpaceStripped(w: string)
    ensures TrimStart(IntBlanks, " " + w) == TrimStart(IntBlanks, w)
  {
    TrimStartCons(IntBlanks, ' ', w);
  }

  lemma NewlineKept(s: string)
    requires s != [] && !IsBlank(IntBlanks, s[0])
    ensures TrimStart(IntBlanks, s + "\n") == s + "\n"
  {
    var w := s + "\n";
    assert w[0] == s[0];
  }

  /** Text that starts with one of the separators 0x1C..0x1F is never an
      integer, although `str.strip()` removes that separator. */
  lemma IntRejectsSeparator(c: char, s: string)
    requires 0x1C <= c as int <= 0x1F
    ensures ParseInt([c] + s) == None
    ensures Trim([c] + s) == Trim(s)
  {
    assert IsBlank(StripBlanks, c) && !IsBlank(IntBlanks, c);
    TrimStartCons(StripBlanks, c, s);
    TrimStartCons(IntBlanks, c, s);
    TrimEndKeepsHead(IntBlanks, c, s);
    var t := TrimEnd(IntBlanks, [c] + s);
    assert t[0] == c && !IsDigit(c);
    assert ParseSigned(t) == ParseDigitRun(t);
  }

  /** Stripping the front of `[c] + s` drops `c` exactly when it is blank. */
  lemma TrimStartCons(b: Blanks, c: char, s: string)
    ensures IsBlank(b, c) ==> TrimStart(b, [c] + s) == TrimStart(b, s)
    ensures !IsBlank(b, c) ==> TrimStart(b, [c] + s) == [c] + s
  {
    assert ([c] + s)[1..] == s;
  }

  /** Stripping the end of `s + [c]` drops a blank `c`. */
  lemma TrimEndSnoc(b: Blanks, s: string, c: char)
    requires IsBlank(b, c)
    ensures TrimEnd(b, s + [c]) == TrimEnd(b, s)
  {
    assert (s + [c])[..|s|] == s;
  }

  /** Stripping the end never removes a first character that is not blank. */
  lemma TrimEndKeepsHead(b: Blanks, c: char, s: string)
    requires !IsBlank(b, c)
    ensures var t := TrimEnd(b, [c] + s); t != [] && t[0] == c
  {
    var w := [c] + s;
    assert w[0] == c && !IsBlank(b, w[0]);
    assert TrimEnd(b, w) == w[..|TrimEnd(b, w)|];
  }

  /** Python's `sep.join(items)`. */
  function Join(sep: string, items: seq<string>): string
  {
    if items == [] then ""
    else if |items| == 1 then items[0]
    else Join(sep, items[..|items| - 1]) + sep + items[|items| - 1]
  }
}
