/** Decimal numerals, and the surrounding white space a hand-edited file has. */
module Decimal {

  predicate IsDigit(c: char) {
    '0' <= c <= '9'
  }

  predicate AllDigits(s: string) {
    forall i :: 0 <= i < |s| ==> IsDigit(s[i])
  }

  /** strconv.FormatUint in base ten: no leading zeros. */
  function Format(n: nat): (s: string)
    ensures s != [] && AllDigits(s)
  {
    if n < 10 then ['0' + n as char] else Format(n / 10) + ['0' + (n % 10) as char]
  }

  function ValueOf(s: string): nat
    requires AllDigits(s)
  {
    if s == [] then 0 else 10 * ValueOf(s[..|s| - 1]) + (s[|s| - 1] - '0') as nat
  }

  lemma {:induction false} FormatReadsBack(n: nat)
    ensures ValueOf(Format(n)) == n
  {
    if n >= 10 {
      FormatReadsBack(n / 10);
      var s := Format(n);
      assert s[..|s| - 1] == Format(n / 10);
    } else {
      assert Format(n)[..0] == [];
    }
  }

  /** A numeral begins with a zero only if it is zero. */
  lemma {:induction false} FormatHasNoLeadingZero(n: nat)
    ensures Format(n)[0] == '0' <==> n == 0
    ensures |Format(n)| == 1 <==> n < 10
  {
    if n >= 10 {
      FormatHasNoLeadingZero(n / 10);
    }
  }

  /** unicode.IsSpace */
  predicate IsSpace(c: char) {
    || '\t' <= c <= '\r' || c == ' ' || c == '\U{85}' || c == '\U{A0}' || c == '\U{1680}'
    || '\U{2000}' <= c <= '\U{200A}' || c == '\U{2028}' || c == '\U{2029}' || c == '\U{202F}'
    || c == '\U{205F}' || c == '\U{3000}'
  }

  predicate AllSpace(s: string) {
    forall i :: 0 <= i < |s| ==> IsSpace(s[i])
  }

  function TrimLeft(s: string): string {
    if s != [] && IsSpace(s[0]) then TrimLeft(s[1..]) else s
  }

  function TrimRight(s: string): string {
    if s != [] && IsSpace(s[|s| - 1]) then TrimRight(s[..|s| - 1]) else s
  }

  /** strings.TrimSpace */
  function TrimSpace(s: string): string {
    TrimRight(TrimLeft(s))
  }

  lemma {:induction false} TrimLeftParts(s: string) returns (pre: string)
    ensures AllSpace(pre) && s == pre + TrimLeft(s)
  {
    if s != [] && IsSpace(s[0]) {
      var rest := TrimLeftParts(s[1..]);
      pre := [s[0]] + rest;
    } else {
      pre := [];
    }
  }

  lemma {:induction false} TrimRightParts(s: string) returns (post: string)
    ensures AllSpace(post) && s == TrimRight(s) + post
  {
    if s != [] && IsSpace(s[|s| - 1]) {
      var rest := TrimRightParts(s[..|s| - 1]);
      post := rest + [s[|s| - 1]];
    } else {
      post := [];
    }
  }

  /** Trimming takes white space from the ends and nothing else. */
  lemma TrimParts(s: string) returns (pre: string, post: string)
    ensures AllSpace(pre) && AllSpace(post) && s == pre + TrimSpace(s) + post
  {
    pre := TrimLeftParts(s);
    post := TrimRightParts(TrimLeft(s));
  }

  lemma {:induction false} TrimLeftDrops(pre: string, body: string)
    requires AllSpace(pre) && body != [] && !IsSpace(body[0])
    ensures TrimLeft(pre + body) == body
  {
    if pre == [] {
      assert pre + body == body;
    } else {
      assert (pre + body)[1..] == pre[1..] + body;
      TrimLeftDrops(pre[1..], body);
    }
  }

  lemma {:induction false} TrimRightDrops(body: string, post: string)
    requires AllSpace(post) && body != [] && !IsSpace(body[|body| - 1])
    ensures TrimRight(body + post) == body
  {
    if post == [] {
      assert body + post == body;
    } else {
      var s := body + post;
      assert s[..|s| - 1] == body + post[..|post| - 1];
      TrimRightDrops(body, post[..|post| - 1]);
    }
  }

  /** A body with no space at either end is what trimming leaves. */
  lemma TrimSpaceDrops(pre: string, body: string, post: string)
    requires AllSpace(pre) && AllSpace(post)
    requires body != [] && !IsSpace(body[0]) && !IsSpace(body[|body| - 1])
    ensures TrimSpace(pre + body + post) == body
  {
    assert pre + body + post == pre + (body + post);
    TrimLeftDrops(pre, body + post);
    TrimRightDrops(body, post);
  }
}
