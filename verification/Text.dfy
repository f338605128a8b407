/** The string operations the services borrow from Go's standard library. */
module Text {
  /** White space as `strings.TrimSpace` sees it. */
  predicate IsSpace(c: char) {
    || c == ' '
    || '\t' <= c <= '\r'
    || c == '\U{0085}' || c == '\U{00A0}' || c == '\U{1680}'
    || '\U{2000}' <= c <= '\U{200A}'
    || c == '\U{2028}' || c == '\U{2029}' || c == '\U{202F}' || c == '\U{205F}' || c == '\U{3000}'
  }

  predicate IsQuote(c: char) {
    c == '"' || c == '\''
  }

  function TrimLeft(s: string, cut: char -> bool): string {
    if s != [] && cut(s[0]) then TrimLeft(s[1..], cut) else s
  }

  function TrimRight(s: string, cut: char -> bool): string {
    if s != [] && cut(s[|s| - 1]) then TrimRight(s[..|s| - 1], cut) else s
  }

  /** `strings.TrimFunc`: removes the characters of the cut set from both ends, and nothing else. */
  function Trim(s: string, cut: char -> bool): string {
    TrimRight(TrimLeft(s, cut), cut)
  }

  function TrimSpace(s: string): string {
    Trim(s, IsSpace)
  }

  /** No character of the cut set at either end. */
  predicate Trimmed(s: string, cut: char -> bool) {
    s == [] || (!cut(s[0]) && !cut(s[|s| - 1]))
  }

  lemma {:induction false} TrimLeftStops(s: string, cut: char -> bool)
    ensures TrimLeft(s, cut) == [] || !cut(TrimLeft(s, cut)[0])
  {
    if s != [] && cut(s[0]) {
      TrimLeftStops(s[1..], cut);
    }
  }

  lemma {:induction false} TrimRightStops(s: string, cut: char -> bool)
    ensures TrimRight(s, cut) == [] ||
      (!cut(TrimRight(s, cut)[|TrimRight(s, cut)| - 1]) && TrimRight(s, cut)[0] == s[0])
  {
    if s != [] && cut(s[|s| - 1]) {
      TrimRightStops(s[..|s| - 1], cut);
    }
  }

  /** Trimming leaves nothing to trim, and changes nothing that is already trimmed. */
  lemma TrimIsIdempotent(s: string, cut: char -> bool)
    ensures Trimmed(Trim(s, cut), cut)
    ensures Trim(Trim(s, cut), cut) == Trim(s, cut)
  {
    TrimLeftStops(s, cut);
    TrimRightStops(TrimLeft(s, cut), cut);
  }

  function LowerChar(c: char): char {
    if 'A' <= c <= 'Z' then ((c as int) + 32) as char else c
  }

  function UpperChar(c: char): char {
    if 'a' <= c <= 'z' then ((c as int) - 32) as char else c
  }

  function ToLower(s: string): string {
    if s == [] then [] else [LowerChar(s[0])] + ToLower(s[1..])
  }

  function ToUpper(s: string): string {
    if s == [] then [] else [UpperChar(s[0])] + ToUpper(s[1..])
  }

  /** `strings.Contains`. */
  predicate Contains(s: string, part: string) {
    exists i :: 0 <= i <= |s| && part <= s[i..]
  }

  function Digit(d: nat): char
    requires d < 10
  {
    ('0' as int + d) as char
  }

  function Digits(n: nat): (s: string)
    ensures s != []
    ensures 10 <= n ==> 2 <= |s|
    ensures forall c | c in s :: '0' <= c <= '9'
  {
    if n < 10 then [Digit(n)] else Digits(n / 10) + [Digit(n % 10)]
  }

  /** `strconv.Itoa`. */
  function Itoa(n: int): (s: string)
    ensures s != [] && (s[0] == '-' <==> n < 0)
    ensures forall c | c in s :: c == '-' || '0' <= c <= '9'
  {
    if n < 0 then "-" + Digits(-n) else assert Digits(n)[0] in Digits(n); Digits(n)
  }

  lemma {:induction false} DigitsInjective(m: nat, n: nat)
    requires Digits(m) == Digits(n)
    ensures m == n
  {
    var a, b := Digits(m), Digits(n);
    assert a[|a| - 1] == Digit(m % 10) && b[|b| - 1] == Digit(n % 10);
    if 10 <= m && 10 <= n {
      assert Digits(m / 10) == a[..|a| - 1] == b[..|b| - 1] == Digits(n / 10);
      DigitsInjective(m / 10, n / 10);
    }
  }

  /** Decimal renderings determine the number. */
  lemma ItoaInjective(m: int, n: int)
    requires Itoa(m) == Itoa(n)
    ensures m == n
  {
    if m < 0 && n < 0 {
      assert Digits(-m) == Itoa(m)[1..] == Itoa(n)[1..] == Digits(-n);
      DigitsInjective(-m, -n);
    } else if 0 <= m && 0 <= n {
      DigitsInjective(m, n);
    }
  }

  /** Go's `<` on strings. */
  predicate Less(a: string, b: string) {
    if b == [] then false
    else if a == [] then true
    else if a[0] != b[0] then a[0] < b[0]
    else Less(a[1..], b[1..])
  }

  lemma LessAsymmetric(a: string, b: string)
    requires Less(a, b)
    ensures !Less(b, a)
  {
  }

  lemma {:induction false} NotLessTransitive(a: string, b: string, c: string)
    requires !Less(b, a) && !Less(c, b)
    ensures !Less(c, a)
  {
    if a != [] && b != [] && c != [] && a[0] == b[0] == c[0] {
      NotLessTransitive(a[1..], b[1..], c[1..]);
    }
  }

  lemma {:induction false} LessTotal(a: string, b: string)
    requires a != b
    ensures Less(a, b) || Less(b, a)
  {
    if a != [] && b != [] && a[0] == b[0] {
      assert a == [a[0]] + a[1..] && b == [b[0]] + b[1..];
      LessTotal(a[1..], b[1..]);
    }
  }

  // ---- What the operations mean ----

  /** The characters Go's `unicode.IsSpace` accepts. */
  const SPACES := "\t\n\U{000B}\U{000C}\r \U{0085}\U{00A0}\U{1680}\U{2000}\U{2001}\U{2002}\U{2003}\U{2004}\U{2005}" +
    "\U{2006}\U{2007}\U{2008}\U{2009}\U{200A}\U{2028}\U{2029}\U{202F}\U{205F}\U{3000}"

  lemma SpacesAndQuotes(c: char)
    ensures IsSpace(c) <==> c in SPACES
    ensures IsQuote(c) <==> c in "'\""
  {
    if IsSpace(c) {
      var n := c as int;
      var k := if n <= 13 then n - 9 else if n == 32 then 5 else if n == 0x85 then 6 else if n == 0xA0 then 7
        else if n == 0x1680 then 8 else if n <= 0x200A then n - 0x2000 + 9 else if n <= 0x2029 then n - 0x2028 + 20
        else if n == 0x202F then 22 else if n == 0x205F then 23 else 24;
      assert SPACES[k] == c;
    }
    if IsQuote(c) {
      assert "'\""[if c == '"' then 1 else 0] == c;
    }
  }

  lemma {:induction false} TrimLeftCuts(s: string, cut: char -> bool) returns (i: nat)
    ensures i <= |s| && TrimLeft(s, cut) == s[i..]
    ensures forall k | 0 <= k < i :: cut(s[k])
  {
    i := 0;
    if s != [] && cut(s[0]) {
      var rest := TrimLeftCuts(s[1..], cut);
      i := rest + 1;
      forall k | 0 <= k < i ensures cut(s[k]) {
        assert 0 < k ==> s[k] == s[1..][k - 1];
      }
    }
  }

  lemma {:induction false} TrimRightCuts(s: string, cut: char -> bool) returns (j: nat)
    ensures j <= |s| && TrimRight(s, cut) == s[..j]
    ensures forall k | j <= k < |s| :: cut(s[k])
  {
    j := |s|;
    if s != [] && cut(s[|s| - 1]) {
      j := TrimRightCuts(s[..|s| - 1], cut);
      assert forall k | j <= k < |s| - 1 :: s[k] == s[..|s| - 1][k];
    }
  }

  /** Trimming removes characters of the cut set from both ends, all of them, and nothing else. */
  lemma TrimMeaning(s: string, cut: char -> bool) returns (i: nat, j: nat)
    ensures i <= j <= |s| && Trim(s, cut) == s[i..j] && Trimmed(s[i..j], cut)
    ensures forall k | 0 <= k < i || j <= k < |s| :: cut(s[k])
  {
    i := TrimLeftCuts(s, cut);
    var n := TrimRightCuts(s[i..], cut);
    j := i + n;
    assert s[i..][..n] == s[i..j];
    forall k | 0 <= k < i || j <= k < |s| ensures cut(s[k]) {
      assert j <= k ==> s[k] == s[i..][k - i];
    }
    TrimIsIdempotent(s, cut);
  }

  lemma {:induction false} LeadingCutsGo(pre: string, s: string, cut: char -> bool)
    requires forall c | c in pre :: cut(c)
    ensures TrimLeft(pre + s, cut) == TrimLeft(s, cut)
  {
    if pre == [] {
      assert pre + s == s;
    } else {
      assert pre[0] in pre && (pre + s)[0] == pre[0] && (pre + s)[1..] == pre[1..] + s;
      LeadingCutsGo(pre[1..], s, cut);
    }
  }

  lemma {:induction false} TrailingCutsGo(s: string, post: string, cut: char -> bool)
    requires forall c | c in post :: cut(c)
    ensures TrimRight(s + post, cut) == TrimRight(s, cut)
  {
    if post == [] {
      assert s + post == s;
    } else {
      var n := |post| - 1;
      assert post[n] in post && (s + post)[|s| + n] == post[n] && (s + post)[..|s| + n] == s + post[..n];
      TrailingCutsGo(s, post[..n], cut);
    }
  }

  /** Whatever is put around a trimmed text goes again. */
  lemma TrimUndoes(pre: string, s: string, post: string, cut: char -> bool)
    requires (forall c | c in pre :: cut(c)) && (forall c | c in post :: cut(c)) && Trimmed(s, cut)
    ensures Trim(pre + s + post, cut) == s
  {
    assert pre + s + post == pre + (s + post);
    LeadingCutsGo(pre, s + post, cut);
    if s == [] {
      assert s + post == post && post + [] == post;
      LeadingCutsGo(post, [], cut);
    } else {
      assert (s + post)[0] == s[0];
      TrailingCutsGo(s, post, cut);
    }
  }

  lemma {:induction false} CaseCharByChar(s: string, i: nat)
    requires i < |s|
    ensures |ToLower(s)| == |ToUpper(s)| == |s|
    ensures ToLower(s)[i] == LowerChar(s[i]) && ToUpper(s)[i] == UpperChar(s[i])
  {
    if |s| > 1 {
      CaseCharByChar(s[1..], if i == 0 then 0 else i - 1);
    }
  }

  function Offset(c: char, from: char): int {
    c as int - from as int
  }

  /** A letter becomes the letter at the same place in the other alphabet, and nothing else changes. */
  lemma CaseMeaning(s: string, i: nat)
    requires i < |s|
    ensures |ToLower(s)| == |ToUpper(s)| == |s|
    ensures 'A' <= s[i] <= 'Z' ==> Offset(ToLower(s)[i], 'a') == Offset(s[i], 'A')
    ensures 'a' <= s[i] <= 'z' ==> Offset(ToUpper(s)[i], 'A') == Offset(s[i], 'a')
    ensures !('A' <= s[i] <= 'Z') ==> ToLower(s)[i] == s[i]
    ensures !('a' <= s[i] <= 'z') ==> ToUpper(s)[i] == s[i]
  {
    CaseCharByChar(s, i);
  }

  lemma {:induction false} UpperAppend(a: string, b: string)
    ensures ToUpper(a + b) == ToUpper(a) + ToUpper(b)
  {
    if a == "" {
      assert a + b == b;
    } else {
      assert (a + b)[1..] == a[1..] + b;
      UpperAppend(a[1..], b);
    }
  }

  lemma {:induction false} UpperTwice(s: string)
    ensures ToUpper(ToUpper(s)) == ToUpper(s)
    ensures ToLower(ToUpper(s)) == ToLower(s)
  {
    if s != "" {
      UpperTwice(s[1..]);
    }
  }

  lemma ContainsMeaning(s: string, part: string)
    ensures Contains(s, part) <==> exists pre, post :: s == pre + part + post
  {
    if Contains(s, part) {
      var i :| 0 <= i <= |s| && part <= s[i..];
      assert s == s[..i] + part + s[i..][|part|..];
    }
    if pre, post :| s == pre + part + post {
      assert s[|pre|..] == part + post;
    }
  }

  /** The number a row of digits stands for. */
  function ValueOf(digits: string): int {
    if digits == [] then 0 else ValueOf(digits[..|digits| - 1]) * 10 + (digits[|digits| - 1] as int - '0' as int)
  }

  lemma {:induction false} DigitsMeaning(n: nat)
    ensures ValueOf(Digits(n)) == n
    ensures Digits(n)[0] == '0' ==> n == 0
  {
    if n >= 10 {
      DigitsMeaning(n / 10);
      assert Digits(n)[..|Digits(n)| - 1] == Digits(n / 10);
    }
  }

  /** The decimal notation of the number, with a sign only if it is negative. */
  lemma ItoaMeaning(n: int)
    ensures if n < 0 then Itoa(n)[0] == '-' && ValueOf(Itoa(n)[1..]) == -n else ValueOf(Itoa(n)) == n
  {
    DigitsMeaning(if n < 0 then -n else n);
  }

  /** `a` and `b` agree up to position `k`, where `a` ends or is smaller. */
  predicate SmallerAt(a: string, b: string, k: nat) {
    k <= |a| && k < |b| && a[..k] == b[..k] && (k == |a| || a[k] < b[k])
  }

  lemma AgreementBegins(a: string, b: string, k: nat)
    requires SmallerAt(a, b, k)
    ensures k == 0 || (a != [] && b != [] && a[0] == b[0])
  {
    if k != 0 {
      assert a[..k][0] == b[..k][0];
    }
  }

  lemma {:induction false} LessMeaning(a: string, b: string)
    ensures Less(a, b) <==> exists k: nat :: SmallerAt(a, b, k)
  {
    if a != [] && b != [] && a[0] == b[0] {
      LessMeaning(a[1..], b[1..]);
      if Less(a[1..], b[1..]) {
        var k: nat :| SmallerAt(a[1..], b[1..], k);
        assert a[..k + 1] == [a[0]] + a[1..][..k] && b[..k + 1] == [b[0]] + b[1..][..k];
        assert SmallerAt(a, b, k + 1);
      }
      if k: nat :| SmallerAt(a, b, k) {
        assert a[1..][..k - 1] == a[..k][1..] && b[1..][..k - 1] == b[..k][1..];
        assert SmallerAt(a[1..], b[1..], k - 1);
      }
    } else {
      assert Less(a, b) <==> SmallerAt(a, b, 0);
      forall k: nat | SmallerAt(a, b, k) ensures k == 0 {
        AgreementBegins(a, b, k);
      }
    }
  }
}
