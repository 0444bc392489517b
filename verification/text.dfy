/** The pieces of Go's standard library that the metric pipeline's decisions depend on:
    ASCII case mapping (strings.ToLower), filepath.Ext and filepath.Join on Unix paths,
    strings.TrimSpace over ASCII white space, and strconv.Atoi on a 64-bit platform. */
module Text {
  import opened Base

  // ---------------------------------------------------------------------------
  // Case mapping
  // ---------------------------------------------------------------------------

  predicate IsUpper(c: char) { 'A' <= c <= 'Z' }

  predicate IsLower(c: char) { 'a' <= c <= 'z' }

  function LowerChar(c: char): char
  {
    if IsUpper(c) then (c as int + 32) as char else c
  }

  function UpperChar(c: char): char
  {
    if IsLower(c) then (c as int - 32) as char else c
  }

  /** strings.ToLower, restricted to the ASCII letters. */
  function ToLower(s: string): (r: string)
    ensures |r| == |s|
    ensures forall i :: 0 <= i < |r| ==> !IsUpper(r[i])
    ensures forall i :: 0 <= i < |s| && !IsUpper(s[i]) ==> r[i] == s[i]
    ensures forall i :: 0 <= i < |s| && IsUpper(s[i]) ==> r[i] as int == s[i] as int + ('a' as int - 'A' as int)
  {
    seq(|s|, i requires 0 <= i < |s| => LowerChar(s[i]))
  }

  /** strings.ToUpper, restricted to the ASCII letters. */
  function ToUpper(s: string): (r: string)
    ensures |r| == |s|
    ensures forall i :: 0 <= i < |r| ==> !IsLower(r[i])
    ensures forall i :: 0 <= i < |s| && !IsLower(s[i]) ==> r[i] == s[i]
    ensures forall i :: 0 <= i < |s| && IsLower(s[i]) ==> r[i] as int == s[i] as int - ('a' as int - 'A' as int)
  {
    seq(|s|, i requires 0 <= i < |s| => UpperChar(s[i]))
  }

  /** Lower-casing forgets any earlier upper-casing: the comparison
      `ToLower(a) == ToLower(b)` is blind to the case of the letters in `a` and `b`. */
  lemma LowerAfterUpper(s: string)
    ensures ToLower(ToUpper(s)) == ToLower(s)
  {
    assert forall i :: 0 <= i < |s| ==> LowerChar(UpperChar(s[i])) == LowerChar(s[i]);
  }

  /** A string without upper-case letters is its own lower-case form. */
  lemma LowerOfLowerCase(s: string)
    requires forall i :: 0 <= i < |s| ==> !IsUpper(s[i])
    ensures ToLower(s) == s
  {
  }

  // ---------------------------------------------------------------------------
  // filepath.Ext and filepath.Join (Unix separator '/')
  // ---------------------------------------------------------------------------

  /** No '.' occurs in the final element of `path`, the part after its last '/'. */
  predicate NoDotInLastElement(path: string)
  {
    forall i :: 0 <= i < |path| && path[i] == '.' ==> '/' in path[i + 1..]
  }

  /** `e` is the extension of `path`: the suffix that starts at the last '.' of the
      final path element, or the empty string when that element holds no '.'. */
  predicate IsExtension(e: string, path: string)
  {
    if e == [] then NoDotInLastElement(path)
    else
      && |e| <= |path|
      && path[|path| - |e|..] == e
      && e[0] == '.'
      && forall i :: 1 <= i < |e| ==> e[i] != '.' && e[i] != '/'
  }

  /** filepath.Ext: scan back from the end, stop at a separator, answer at the first '.'. */
  function Ext(path: string): (r: string)
    ensures IsExtension(r, path)
    decreases |path|
  {
    if |path| == 0 then ""
    else
      var c := path[|path| - 1];
      var init := path[..|path| - 1];
      assert path == init + [c];
      if c == '/' then
        assert forall i :: 0 <= i < |path| - 1 && path[i] == '.' ==> path[|path| - 1] in path[i + 1..];
        ""
      else if c == '.' then "."
      else
        var e := Ext(init);
        if e == "" then
          assert forall i :: 0 <= i < |init| && init[i] == '.' ==> path[i + 1..] == init[i + 1..] + [c];
          ""
        else
          assert path[|path| - |e| - 1..] == init[|init| - |e|..] + [c];
          e + [c]
  }

  /** A path has exactly one extension. */
  lemma ExtensionUnique(e1: string, e2: string, path: string)
    requires IsExtension(e1, path) && IsExtension(e2, path)
    ensures e1 == e2
  {
    if e1 != [] && e2 != [] {
    } else if e1 != [] {
      NotBoth(e1, path);
    } else if e2 != [] {
      NotBoth(e2, path);
    }
  }

  /** A non-empty extension sits in the final path element, so that element has a '.'. */
  lemma NotBoth(e: string, path: string)
    requires e != [] && IsExtension(e, path)
    ensures !NoDotInLastElement(path)
  {
    var i := |path| - |e|;
    assert path[i] == '.';
    assert path[i + 1..] == e[1..];
  }

  /** filepath.Join of a directory and one entry name: empty elements are dropped and the
      rest joined by '/'. The lexical clean-up Join also applies is not modelled. */
  function JoinPath(dir: string, name: string): (r: string)
    ensures |dir| <= |r| && r[..|dir|] == dir
    ensures |name| <= |r| && r[|r| - |name|..] == name
    ensures dir != "" && name != "" ==> |r| == |dir| + 1 + |name| && r[|dir|] == '/'
    ensures dir == "" || name == "" ==> |r| == |dir| + |name|
  {
    if dir == "" then name
    else if name == "" then dir
    else dir + "/" + name
  }

  /** A name without '/' is a single path element, so an empty extension means no '.'. */
  lemma PlainNameWithoutDot(name: string)
    requires '/' !in name && NoDotInLastElement(name)
    ensures '.' !in name
  {
  }

  /** A name without any '.' has no extension. */
  lemma NoDotNoExtension(name: string)
    requires '.' !in name
    ensures Ext(name) == ""
  {
  }

  /** Joining a directory in front of a plain entry name does not change its extension,
      so the extension test on the joined path agrees with the one on the bare name. */
  lemma {:induction false} ExtOfJoin(dir: string, name: string)
    requires name != "" && '/' !in name
    ensures Ext(JoinPath(dir, name)) == Ext(name)
  {
    if dir != "" {
      var p := dir + "/" + name;
      var e := Ext(name);
      assert p[|dir| + 1..] == name;
      if e == [] {
        PlainNameWithoutDot(name);
        assert forall i :: |dir| < i < |p| ==> p[i] == name[i - |dir| - 1];
        forall i | 0 <= i < |p| && p[i] == '.'
          ensures '/' in p[i + 1..]
        {
          assert i < |dir| && p[|dir|] == '/';
          assert p[i + 1..][|dir| - i - 1] == '/';
        }
      } else {
        assert p[|p| - |e|..] == name[|name| - |e|..];
      }
      assert IsExtension(e, p);
      ExtensionUnique(Ext(p), e, p);
    }
  }

  /** Upper-casing a path upper-cases its extension: '.' and '/' are not letters. */
  lemma ExtOfUpper(path: string)
    ensures Ext(ToUpper(path)) == ToUpper(Ext(path))
  {
    var e := Ext(path);
    var u := ToUpper(path);
    var ue := ToUpper(e);
    if e == [] {
      forall i | 0 <= i < |u| && u[i] == '.'
        ensures '/' in u[i + 1..]
      {
        assert path[i] == '.';
        assert '/' in path[i + 1..];
        var j :| i + 1 <= j < |path| && path[j] == '/';
        assert u[j] == '/';
        assert u[i + 1..][j - i - 1] == '/';
      }
    } else {
      assert u[|u| - |ue|..] == ue;
    }
    assert IsExtension(ue, u);
    ExtensionUnique(Ext(u), ue, u);
  }

  // ---------------------------------------------------------------------------
  // strings.TrimSpace
  // ---------------------------------------------------------------------------

  /** The ASCII white space of strings.TrimSpace: '\t', '\n', '\v', '\f', '\r' and ' '. */
  predicate IsSpace(c: char)
  {
    c == ' ' || c == '\t' || c == '\n' || c == '\r' || c == 11 as char || c == 12 as char
  }

  function TrimLeft(s: string): (r: string)
    ensures |r| <= |s| && r == s[|s| - |r|..]
    ensures forall i :: 0 <= i < |s| - |r| ==> IsSpace(s[i])
    ensures r == [] || !IsSpace(r[0])
  {
    if s != [] && IsSpace(s[0]) then TrimLeft(s[1..]) else s
  }

  function TrimRight(s: string): (r: string)
    ensures |r| <= |s| && r == s[..|r|]
    ensures forall i :: |r| <= i < |s| ==> IsSpace(s[i])
    ensures r == [] || !IsSpace(r[|r| - 1])
  {
    if s != [] && IsSpace(s[|s| - 1]) then TrimRight(s[..|s| - 1]) else s
  }

  predicate AllSpace(s: string)
  {
    forall i :: 0 <= i < |s| ==> IsSpace(s[i])
  }

  /** strings.TrimSpace: `s` is `r` with white space around it, and `r` neither starts
      nor ends with white space. */
  function TrimSpace(s: string): (r: string)
    ensures r == [] || (!IsSpace(r[0]) && !IsSpace(r[|r| - 1]))
    ensures exists pre, post :: s == pre + r + post && AllSpace(pre) && AllSpace(post)
  {
    var left := TrimLeft(s);
    var r := TrimRight(left);
    TrimmedIsPadded(s, left, r);
    r
  }

  /** Cutting a white space prefix and then a white space suffix leaves `s` as padding
      around the middle. */
  lemma TrimmedIsPadded(s: string, left: string, r: string)
    requires |left| <= |s| && left == s[|s| - |left|..]
    requires forall i :: 0 <= i < |s| - |left| ==> IsSpace(s[i])
    requires |r| <= |left| && r == left[..|r|]
    requires forall i :: |r| <= i < |left| ==> IsSpace(left[i])
    requires left == [] || !IsSpace(left[0])
    requires r == [] || !IsSpace(r[|r| - 1])
    ensures r == [] || (!IsSpace(r[0]) && !IsSpace(r[|r| - 1]))
    ensures exists pre, post :: s == pre + r + post && AllSpace(pre) && AllSpace(post)
  {
    var k := |s| - |left|;
    var pre := s[..k];
    var post := left[|r|..];
    assert s == pre + left;
    assert left == r + post;
    assert AllSpace(pre) by {
      forall i | 0 <= i < |pre| ensures IsSpace(pre[i]) { assert pre[i] == s[i]; }
    }
    assert AllSpace(post) by {
      forall i | 0 <= i < |post| ensures IsSpace(post[i]) { assert post[i] == left[|r| + i]; }
    }
    assert s == pre + r + post;
    assert r == [] || r[0] == left[0];
  }

  lemma {:induction false} TrimLeftPadded(pre: string, t: string)
    requires AllSpace(pre) && (t == [] || !IsSpace(t[0]))
    ensures TrimLeft(pre + t) == t
  {
    if pre != [] {
      assert (pre + t)[1..] == pre[1..] + t;
      TrimLeftPadded(pre[1..], t);
    } else {
      assert pre + t == t;
    }
  }

  lemma {:induction false} TrimRightPadded(t: string, post: string)
    requires AllSpace(post) && (t == [] || !IsSpace(t[|t| - 1]))
    ensures TrimRight(t + post) == t
  {
    if post != [] {
      assert (t + post)[..|t + post| - 1] == t + post[..|post| - 1];
      TrimRightPadded(t, post[..|post| - 1]);
    } else {
      assert t + post == t;
    }
  }

  /** TrimSpace removes exactly the white space padding around a value. */
  lemma TrimSpacePadded(pre: string, s: string, post: string)
    requires AllSpace(pre) && AllSpace(post)
    requires s != [] && !IsSpace(s[0]) && !IsSpace(s[|s| - 1])
    ensures TrimSpace(pre + s + post) == s
  {
    assert pre + s + post == pre + (s + post);
    TrimLeftPadded(pre, s + post);
    TrimRightPadded(s, post);
  }

  // ---------------------------------------------------------------------------
  // strconv.Atoi
  // ---------------------------------------------------------------------------

  const Int64Min: int := -0x8000_0000_0000_0000
  const Int64Max: int := 0x7fff_ffff_ffff_ffff

  predicate IsDigit(c: char) { '0' <= c <= '9' }

  predicate AllDigits(s: string)
  {
    forall i :: 0 <= i < |s| ==> IsDigit(s[i])
  }

  /** The value of a string of decimal digits, most significant first. */
  function DigitsValue(ds: string): nat
    requires AllDigits(ds)
  {
    if ds == [] then 0
    else DigitsValue(ds[..|ds| - 1]) * 10 + (ds[|ds| - 1] as int - '0' as int)
  }

  /** strconv.Atoi with a 64-bit `int`: an optional '+' or '-', then at least one decimal
      digit and nothing else; a value outside the int64 range is a range error. */
  function Atoi(s: string): (r: Option<int>)
    ensures r.Some? ==> Int64Min <= r.value <= Int64Max
    ensures r.Some? ==> |s| > 0 && (IsDigit(s[0]) || s[0] == '+' || s[0] == '-')
    ensures r.Some? ==> forall i :: 1 <= i < |s| ==> IsDigit(s[i])
    ensures r.Some? && r.value < 0 ==> s[0] == '-'
  {
    if |s| == 0 then None
    else
      var digits := if s[0] == '+' || s[0] == '-' then s[1..] else s;
      if |digits| == 0 || !AllDigits(digits) then None
      else
        var v: int := if s[0] == '-' then -(DigitsValue(digits) as int) else DigitsValue(digits);
        if Int64Min <= v <= Int64Max then Some(v) else None
  }

  // strconv.Itoa, the inverse used to characterise Atoi

  function DigitChar(d: nat): char
    requires d < 10
  {
    ('0' as int + d) as char
  }

  /** The shortest decimal spelling of `n`. */
  function NatDigits(n: nat): (ds: string)
    ensures |ds| > 0 && AllDigits(ds)
  {
    if n < 10 then [DigitChar(n)] else NatDigits(n / 10) + [DigitChar(n % 10)]
  }

  function Itoa(v: int): string
  {
    if v < 0 then "-" + NatDigits(-v) else NatDigits(v)
  }

  lemma {:induction false} DigitsValueOfNatDigits(n: nat)
    ensures DigitsValue(NatDigits(n)) == n
  {
    if n >= 10 {
      var ds := NatDigits(n);
      assert ds[..|ds| - 1] == NatDigits(n / 10);
      DigitsValueOfNatDigits(n / 10);
    }
  }

  /** Atoi reads back every int64 that Itoa writes. */
  lemma AtoiItoa(v: int)
    requires Int64Min <= v <= Int64Max
    ensures Atoi(Itoa(v)) == Some(v)
  {
    if v < 0 {
      DigitsValueOfNatDigits(-v);
      assert Itoa(v)[1..] == NatDigits(-v);
    } else {
      DigitsValueOfNatDigits(v);
    }
  }

  /** A CSV value field holding an int64's decimal spelling, padded with white space on
      either side, reads back as that integer once trimmed. */
  lemma PaddedNumberParses(pre: string, v: int, post: string)
    requires Int64Min <= v <= Int64Max
    requires AllSpace(pre) && AllSpace(post)
    ensures Atoi(TrimSpace(pre + Itoa(v) + post)) == Some(v)
  {
    var s := Itoa(v);
    var ds := NatDigits(if v < 0 then -v else v);
    assert s[|s| - 1] == ds[|ds| - 1];
    TrimSpacePadded(pre, s, post);
    AtoiItoa(v);
  }

  /** A string holding a character that is neither a digit nor a leading sign is not a
      number. */
  lemma AtoiRejects(s: string, i: nat)
    requires i < |s| && !IsDigit(s[i]) && !(i == 0 && (s[i] == '+' || s[i] == '-'))
    ensures Atoi(s) == None
  {
  }

  /** The empty string and a lone sign are not numbers. */
  lemma AtoiRejectsNoDigits(s: string)
    requires s == "" || s == "+" || s == "-"
    ensures Atoi(s) == None
  {
  }

  // Every spelling strconv.Atoi accepts: an optional sign, any leading zeros, then the
  // shortest decimal spelling of the magnitude.

  predicate AllZeros(z: string)
  {
    forall i :: 0 <= i < |z| ==> z[i] == '0'
  }

  predicate IsSign(sign: string)
  {
    sign == "" || sign == "+" || sign == "-"
  }

  function Signed(sign: string, n: nat): int
  {
    if sign == "-" then -(n as int) else n
  }

  lemma {:induction false} ZerosValue(z: string)
    requires AllZeros(z)
    ensures AllDigits(z) && DigitsValue(z) == 0
  {
    if z != [] {
      ZerosValue(z[..|z| - 1]);
    }
  }

  /** Leading zeros do not change the value of a digit string. */
  lemma {:induction false} LeadingZerosValue(z: string, ds: string)
    requires AllZeros(z) && AllDigits(ds)
    ensures AllDigits(z + ds) && DigitsValue(z + ds) == DigitsValue(ds)
  {
    ZerosValue(z);
    if ds == [] {
      assert z + ds == z;
    } else {
      var init := ds[..|ds| - 1];
      assert (z + ds)[..|z + ds| - 1] == z + init;
      LeadingZerosValue(z, init);
    }
  }

  /** A digit string that does not start with '0' has a value of at least 1. */
  lemma {:induction false} LeadingDigitPositive(ds: string)
    requires ds != [] && AllDigits(ds) && ds[0] != '0'
    ensures DigitsValue(ds) >= 1
  {
    if |ds| > 1 {
      LeadingDigitPositive(ds[..|ds| - 1]);
    }
  }

  /** A digit string without a leading zero is the shortest spelling of its value. */
  lemma {:induction false} CanonicalDigits(ds: string)
    requires ds != [] && AllDigits(ds) && ds[0] != '0'
    ensures NatDigits(DigitsValue(ds)) == ds
  {
    var init := ds[..|ds| - 1];
    var d := ds[|ds| - 1] as int - '0' as int;
    if init == [] {
      assert DigitChar(d) == ds[0];
    } else {
      LeadingDigitPositive(init);
      CanonicalDigits(init);
      var n := DigitsValue(ds);
      assert n / 10 == DigitsValue(init) && n % 10 == d;
      assert ds == init + [DigitChar(d)];
    }
  }

  /** Every non-empty digit string is some zeros followed by a shortest spelling. */
  lemma SplitDigits(ds: string) returns (z: string, n: nat)
    requires ds != [] && AllDigits(ds)
    ensures AllZeros(z) && ds == z + NatDigits(n) && n == DigitsValue(ds)
  {
    if AllZeros(ds) {
      z, n := ds[..|ds| - 1], 0;
      assert ds == z + NatDigits(0);
      ZerosValue(ds);
    } else {
      var k :| 0 <= k < |ds| && ds[k] != '0' && AllZeros(ds[..k]) by {
        var j :| 0 <= j < |ds| && ds[j] != '0';
        var k := FirstNonZero(ds, j);
      }
      var rest := ds[k..];
      z, n := ds[..k], DigitsValue(rest);
      CanonicalDigits(rest);
      assert ds == z + rest;
      LeadingZerosValue(z, rest);
    }
  }

  ghost function FirstNonZero(ds: string, j: nat): (k: nat)
    requires j < |ds| && ds[j] != '0'
    ensures k <= j && ds[k] != '0' && AllZeros(ds[..k])
  {
    if j == 0 || AllZeros(ds[..j]) then j
    else
      var i :| 0 <= i < j && ds[i] != '0';
      FirstNonZero(ds, i)
  }

  /** Atoi accepts every sign, leading zeros and digits spelling, and gives the signed
      magnitude when it fits in an int64. */
  lemma AtoiSpelling(sign: string, z: string, n: nat)
    requires IsSign(sign) && AllZeros(z)
    ensures Atoi(sign + z + NatDigits(n)) ==
      if Int64Min <= Signed(sign, n) <= Int64Max then Some(Signed(sign, n)) else None
  {
    var ds := z + NatDigits(n);
    assert AllDigits(ds) && DigitsValue(ds) == n by {
      LeadingZerosValue(z, NatDigits(n));
      DigitsValueOfNatDigits(n);
    }
    AtoiSignDigits(sign, ds);
    SpellingJoin(sign, z, NatDigits(n));
  }

  /** Every string Atoi accepts is such a spelling, and the value is its signed magnitude. */
  lemma AtoiOnlySpellings(s: string)
    requires Atoi(s).Some?
    ensures exists sign, z, n :: IsSign(sign) && AllZeros(z) && s == sign + z + NatDigits(n)
                                 && Atoi(s).value == Signed(sign, n)
  {
    var sign, ds := AtoiSplitSign(s);
    AtoiSignDigits(sign, ds);
    var z, n := SplitDigits(ds);
    SpellingJoin(sign, z, NatDigits(n));
    assert IsSign(sign) && AllZeros(z) && s == sign + z + NatDigits(n) && Atoi(s).value == Signed(sign, n);
  }

  lemma SpellingJoin(sign: string, z: string, ds: string)
    ensures sign + z + ds == sign + (z + ds)
  {
  }

  /** Atoi on a sign followed by digits: the signed value of the digits, when in range. */
  lemma AtoiSignDigits(sign: string, ds: string)
    requires IsSign(sign) && ds != [] && AllDigits(ds)
    ensures Atoi(sign + ds) ==
      if Int64Min <= Signed(sign, DigitsValue(ds)) <= Int64Max then Some(Signed(sign, DigitsValue(ds))) else None
  {
    var s := sign + ds;
    if sign == "" {
      assert s == ds;
      assert s[0] != '+' && s[0] != '-' by { assert IsDigit(s[0]); }
    } else {
      assert s[0] == sign[0] && s[1..] == ds;
    }
  }

  /** A string Atoi accepts is a sign followed by a non-empty run of digits. */
  lemma AtoiSplitSign(s: string) returns (sign: string, ds: string)
    requires Atoi(s).Some?
    ensures IsSign(sign) && ds != [] && AllDigits(ds) && s == sign + ds
  {
    if s[0] == '+' || s[0] == '-' {
      sign, ds := [s[0]], s[1..];
    } else {
      sign, ds := "", s;
    }
  }

  /** Spellings other than Itoa's that strconv.Atoi accepts. */
  lemma AtoiLenientSpellings()
    ensures Atoi("007") == Some(7) && Atoi("+5") == Some(5) && Atoi("-0") == Some(0)
  {
    assert "" + "00" + NatDigits(7) == "007" by { assert NatDigits(7) == "7"; }
    AtoiSpelling("", "00", 7);
    assert "+" + "" + NatDigits(5) == "+5" by { assert NatDigits(5) == "5"; }
    AtoiSpelling("+", "", 5);
    assert "-" + "" + NatDigits(0) == "-0" by { assert NatDigits(0) == "0"; }
    AtoiSpelling("-", "", 0);
  }
}
