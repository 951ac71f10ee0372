/** Decimal numbers, splitting, joining and stripping of text. */
module Text {
  import opened Options

  // ----- Numbers -------------------------------------------------------------------------------------

  function Digit(d: nat): char
    requires d < 10
  {
    '0' + d as char
  }

  predicate IsDigit(c: char) {
    '0' <= c <= '9'
  }

  function Itoa(n: nat): string {
    if n < 10 then [Digit(n)] else Itoa(n / 10) + [Digit(n % 10)]
  }

  predicate AllDigits(s: string) {
    forall i | 0 <= i < |s| :: IsDigit(s[i])
  }

  function Value(s: string): nat
    requires AllDigits(s)
  {
    if s == "" then 0 else 10 * Value(s[..|s| - 1]) + (s[|s| - 1] - '0') as nat
  }

  predicate IsSpace(c: char) {
    c == ' ' || '\t' <= c <= '\r' || '\U{1c}' <= c <= '\U{1f}'
  }

  function StripLeft(s: string): string {
    if s != "" && IsSpace(s[0]) then StripLeft(s[1..]) else s
  }

  function StripRight(s: string): string {
    if s != "" && IsSpace(s[|s| - 1]) then StripRight(s[..|s| - 1]) else s
  }

  function Strip(s: string): string {
    StripRight(StripLeft(s))
  }

  predicate StartsWith(s: string, prefix: string) {
    prefix <= s
  }

  /** `int(text)`: surrounding space, an optional sign, decimal digits; anything else is an error. */
  function ParseInt(text: string): Option<int> {
    var s := Strip(text);
    var signed := s != "" && (s[0] == '-' || s[0] == '+');
    var digits := if signed then s[1..] else s;
    if digits == "" || !AllDigits(digits) then None
    else
      var v: int := Value(digits);
      Some(if signed && s[0] == '-' then -v else v)
  }

  lemma {:induction false} ItoaValue(n: nat)
    ensures Itoa(n) != "" && AllDigits(Itoa(n)) && Value(Itoa(n)) == n
  {
    if n >= 10 {
      ItoaValue(n / 10);
      assert Itoa(n)[..|Itoa(n)| - 1] == Itoa(n / 10);
    } else {
      assert Itoa(n)[..0] == "";
    }
  }

  lemma ValueMeans(s: string, c: char)
    requires AllDigits(s) && IsDigit(c)
    ensures Value("") == 0 && AllDigits(s + [c]) && Value(s + [c]) == 10 * Value(s) + (c as int - '0' as int)
  {
    assert (s + [c])[..|s|] == s;
  }

  lemma StripDigits(s: string)
    requires s != "" && !IsSpace(s[0]) && !IsSpace(s[|s| - 1])
    ensures Strip(s) == s
  {
  }

  lemma ItoaRoundTrip(n: nat)
    ensures ParseInt(Itoa(n)) == Some(n)
  {
    ItoaValue(n);
    assert IsDigit(Itoa(n)[0]) && IsDigit(Itoa(n)[|Itoa(n)| - 1]);
    StripDigits(Itoa(n));
  }

  // ----- What a number looks like --------------------------------------------------------------------

  /** The ASCII characters that Python counts as white space. */
  lemma SpacesAre(c: char)
    ensures IsSpace(c) <==> c in " \t\n\U{b}\U{c}\r\U{1c}\U{1d}\U{1e}\U{1f}"
  {
  }

  /** Decimal, without leading zeros. */
  lemma ItoaMeans(n: nat)
    ensures n < 10 ==> Itoa(n) == ["0123456789"[n]]
    ensures n >= 10 ==> Itoa(n) == Itoa(n / 10) + ["0123456789"[n % 10]]
    ensures n > 0 ==> Itoa(n)[0] != '0'
  {
    if n >= 10 {
      ItoaMeans(n / 10);
      ItoaValue(n / 10);
    }
  }

  predicate AllSpace(s: string) {
    forall i | 0 <= i < |s| :: IsSpace(s[i])
  }

  predicate Trim(s: string) {
    s != "" ==> !IsSpace(s[0]) && !IsSpace(s[|s| - 1])
  }

  lemma {:induction false} StripLeftMeans(s: string) returns (a: string)
    ensures s == a + StripLeft(s) && AllSpace(a) && (StripLeft(s) != "" ==> !IsSpace(StripLeft(s)[0]))
  {
    a := "";
    if s != "" && IsSpace(s[0]) {
      var more := StripLeftMeans(s[1..]);
      a := [s[0]] + more;
    }
  }

  lemma {:induction false} StripRightMeans(s: string) returns (b: string)
    ensures s == StripRight(s) + b && AllSpace(b)
    ensures StripRight(s) != "" ==> !IsSpace(StripRight(s)[|StripRight(s)| - 1])
  {
    b := "";
    if s != "" && IsSpace(s[|s| - 1]) {
      var more := StripRightMeans(s[..|s| - 1]);
      b := more + [s[|s| - 1]];
    }
  }

  /** Stripping takes off white space at both ends, and all of it. */
  lemma StripMeans(s: string) returns (a: string, b: string)
    ensures s == a + Strip(s) + b && AllSpace(a) && AllSpace(b) && Trim(Strip(s))
  {
    a := StripLeftMeans(s);
    b := StripRightMeans(StripLeft(s));
    var t := StripLeft(s);
    assert Strip(s) != "" ==> Strip(s)[0] == t[0];
    assert s == a + (Strip(s) + b);
  }

  lemma {:induction false} StripLeftOff(a: string, t: string)
    requires AllSpace(a) && (t != "" ==> !IsSpace(t[0]))
    ensures StripLeft(a + t) == t
  {
    if a == "" {
      assert a + t == t;
    } else {
      StripLeftOff(a[1..], t);
      assert (a + t)[1..] == a[1..] + t;
    }
  }

  lemma {:induction false} StripRightOff(t: string, b: string)
    requires AllSpace(b) && (t != "" ==> !IsSpace(t[|t| - 1]))
    ensures StripRight(t + b) == t
  {
    if b == "" {
      assert t + b == t;
    } else {
      StripRightOff(t, b[..|b| - 1]);
      assert (t + b)[..|t + b| - 1] == t + b[..|b| - 1];
    }
  }

  lemma StripOff(a: string, t: string, b: string)
    requires AllSpace(a) && AllSpace(b) && Trim(t)
    ensures Strip(a + t + b) == t
  {
    if t == "" {
      assert a + t + b == a + b + "" && AllSpace(a + b);
      StripLeftOff(a + b, "");
    } else {
      assert a + t + b == a + (t + b);
      StripLeftOff(a, t + b);
      StripRightOff(t, b);
    }
  }

  /** A number in the text: white space, perhaps a sign, digits, white space. */
  predicate Reads(text: string, a: string, sign: string, digits: string, b: string) {
    && text == a + (sign + digits) + b && AllSpace(a) && AllSpace(b)
    && (sign == "" || sign == "-" || sign == "+") && digits != "" && AllDigits(digits)
  }

  /** `int` succeeds on exactly these texts, and a minus sign negates. */
  lemma ParseIntIff(text: string, v: int)
    ensures ParseInt(text) == Some(v) <==>
            exists a, sign, digits, b :: Reads(text, a, sign, digits, b)
                && v == if sign == "-" then -(Value(digits) as int) else Value(digits)
  {
    if ParseInt(text) == Some(v) {
      var a, b := StripMeans(text);
      var s := Strip(text);
      var signed := s[0] == '-' || s[0] == '+';
      var sign, digits := if signed then [s[0]] else "", if signed then s[1..] else s;
      assert sign + digits == s;
      assert Reads(text, a, sign, digits, b);
    }
    forall a, sign, digits, b | Reads(text, a, sign, digits, b)
      ensures ParseInt(text) == Some(if sign == "-" then -(Value(digits) as int) else Value(digits))
    {
      SignedIsParsed(text, a, sign, digits, b);
    }
  }

  lemma SignedIsParsed(text: string, a: string, sign: string, digits: string, b: string)
    requires Reads(text, a, sign, digits, b)
    ensures ParseInt(text) == Some(if sign == "-" then -(Value(digits) as int) else Value(digits))
  {
    var t := sign + digits;
    assert IsDigit(digits[0]) && IsDigit(digits[|digits| - 1]);
    assert t[|t| - 1] == digits[|digits| - 1] && t[0] == if sign == "" then digits[0] else sign[0];
    StripOff(a, t, b);
    assert sign == "" ==> t == digits;
    assert sign != "" ==> t[1..] == digits;
  }

  // ----- Splitting and joining -----------------------------------------------------------------------

  function Split(s: string, c: char): (parts: seq<string>)
    ensures parts != []
  {
    if s == "" then [""]
    else
      var rest := Split(s[1..], c);
      if s[0] == c then [""] + rest else [[s[0]] + rest[0]] + rest[1..]
  }

  function Join(parts: seq<string>, c: char): string {
    if parts == [] then ""
    else if |parts| == 1 then parts[0]
    else parts[0] + [c] + Join(parts[1..], c)
  }

  lemma {:induction false} SplitPlain(s: string, c: char)
    requires c !in s
    ensures Split(s, c) == [s]
  {
    if s == "" {
    } else {
      SplitPlain(s[1..], c);
      assert [s[0]] + s[1..] == s && [s[1..]][1..] == [];
    }
  }

  /** The part before a separator is finished. */
  lemma {:induction false} SplitFirst(a: string, c: char, b: string)
    requires c !in a
    ensures Split(a + [c] + b, c) == [a] + Split(b, c)
  {
    if a == "" {
      assert a + [c] + b == [c] + b && ([c] + b)[1..] == b;
    } else {
      SplitFirst(a[1..], c, b);
      assert (a + [c] + b)[1..] == a[1..] + [c] + b;
      assert [a[0]] + a[1..] == a && ([a[1..]] + Split(b, c))[1..] == Split(b, c);
    }
  }

  lemma {:induction false} SplitJoin(parts: seq<string>, c: char)
    requires parts != [] && forall i | 0 <= i < |parts| :: c !in parts[i]
    ensures Split(Join(parts, c), c) == parts
  {
    if |parts| == 1 {
      SplitPlain(parts[0], c);
    } else {
      SplitJoin(parts[1..], c);
      SplitFirst(parts[0], c, Join(parts[1..], c));
    }
  }

  /** The parts hold no separator, and joined they are the text again. */
  lemma {:induction false} JoinSplit(s: string, c: char)
    ensures Join(Split(s, c), c) == s
    ensures forall i | 0 <= i < |Split(s, c)| :: c !in Split(s, c)[i]
  {
    if s == "" {
    } else {
      JoinSplit(s[1..], c);
      var rest := Split(s[1..], c);
      if s[0] == c {
        assert ([""] + rest)[1..] == rest;
        assert "" + [c] + s[1..] == s;
      } else {
        var parts := [[s[0]] + rest[0]] + rest[1..];
        assert parts[1..] == rest[1..];
        if |rest| == 1 {
          assert Join(rest, c) == rest[0];
          assert [s[0]] + rest[0] == s;
        } else {
          assert parts[0] + [c] + Join(rest[1..], c) == [s[0]] + (rest[0] + [c] + Join(rest[1..], c));
        }
      }
    }
  }

  lemma JoinMeans(part: string, rest: seq<string>, c: char)
    ensures Join([part], c) == part
    ensures rest != [] ==> Join([part] + rest, c) == part + [c] + Join(rest, c)
  {
    assert ([part] + rest)[1..] == rest;
  }

  function Init(parts: seq<string>): seq<string>
    requires parts != []
  {
    parts[..|parts| - 1]
  }

  function Last(parts: seq<string>): string
    requires parts != []
  {
    parts[|parts| - 1]
  }

  lemma SplitCons(x: char, s: string, c: char)
    ensures Split([x] + s, c) ==
            if x == c then [""] + Split(s, c) else [[x] + Split(s, c)[0]] + Split(s, c)[1..]
  {
    assert ([x] + s)[1..] == s;
  }

  lemma StitchEmpty(rest: seq<string>, more: seq<string>)
    requires rest != []
    ensures Init([""] + rest) + more == [""] + (Init(rest) + more) && Last([""] + rest) == Last(rest)
  {
  }

  lemma StitchHead(x: char, rest: seq<string>, more: seq<string>)
    requires |rest| >= 2
    ensures var parts, all := [[x] + rest[0]] + rest[1..], Init(rest) + more;
            Init(parts) + more == [[x] + all[0]] + all[1..] && Last(parts) == Last(rest)
  {
  }

  ghost predicate Resumes(a: string, b: string, c: char) {
    Split(a + b, c) == Init(Split(a, c)) + Split(Last(Split(a, c)) + b, c)
  }

  lemma ResumesAtSeparator(a: string, b: string, c: char)
    requires Resumes(a, b, c)
    ensures Resumes([c] + a, b, c)
  {
    hide Split;
    var rest := Split(a, c);
    assert ([c] + a) + b == [c] + (a + b);
    SplitCons(c, a, c);
    SplitCons(c, a + b, c);
    StitchEmpty(rest, Split(Last(rest) + b, c));
  }

  lemma ResumesInOnly(x: char, a: string, b: string, c: char)
    requires Resumes(a, b, c) && x != c && |Split(a, c)| == 1
    ensures Resumes([x] + a, b, c)
  {
    hide Split;
    var only := Split(a, c)[0];
    var y, more := [x] + only, Split(only + b, c);
    assert Split(a, c) == [only];
    assert ([x] + a) + b == [x] + (a + b);
    assert y + b == [x] + (only + b);
    assert Split(a + b, c) == more by {
      OnePart(only, more);
    }
    assert Split([x] + a, c) == [y] by {
      SplitCons(x, a, c);
    }
    SplitCons(x, a + b, c);
    SplitCons(x, only + b, c);
    OnePart(y, Split(y + b, c));
  }

  lemma ResumesInFirst(x: char, a: string, b: string, c: char)
    requires Resumes(a, b, c) && x != c && |Split(a, c)| >= 2
    ensures Resumes([x] + a, b, c)
  {
    hide Split;
    var rest := Split(a, c);
    assert ([x] + a) + b == [x] + (a + b);
    SplitCons(x, a, c);
    SplitCons(x, a + b, c);
    StitchHead(x, rest, Split(Last(rest) + b, c));
  }

  lemma OnePart(s: string, more: seq<string>)
    ensures Init([s]) + more == more && Last([s]) == s
  {
  }

  /** Splitting can be suspended: the last part waits for more text. */
  lemma {:induction false} SplitResumes(a: string, b: string, c: char)
    ensures Split(a + b, c) == Init(Split(a, c)) + Split(Last(Split(a, c)) + b, c)
  {
    if a == "" {
      assert a + b == b && "" + b == b;
    } else {
      hide Split;
      SplitResumes(a[1..], b, c);
      assert a == [a[0]] + a[1..];
      if a[0] == c {
        ResumesAtSeparator(a[1..], b, c);
      } else if |Split(a[1..], c)| == 1 {
        ResumesInOnly(a[0], a[1..], b, c);
      } else {
        ResumesInFirst(a[0], a[1..], b, c);
      }
    }
  }
}
