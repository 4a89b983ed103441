/** String operations the roster script relies on from Python's built-ins:
    `str.split(sep)`, `str.split()` (whitespace tokens), `int(text)` and
    `sep.join(parts)`, stated over `seq<char>`. */
module Text {

  datatype Option<T> = None | Some(value: T)

  /** ASCII characters that `str.split()` treats as whitespace: tab, line
      feed, vertical tab, form feed, carriage return, the four separators
      0x1C-0x1F and the space. */
  predicate IsSpace(c: char) {
    9 <= c as int <= 13 || 28 <= c as int <= 32
  }

  /** ASCII characters that `int()` strips around its literal: the same
      set without the separators 0x1C-0x1F, which make `int()` fail. */
  predicate IsIntSpace(c: char) {
    9 <= c as int <= 13 || c == ' '
  }

  predicate IsDigit(c: char) {
    '0' <= c <= '9'
  }

  predicate AllDigits(s: string) {
    forall k :: 0 <= k < |s| ==> IsDigit(s[k])
  }

  predicate NoSpace(s: string) {
    forall k :: 0 <= k < |s| ==> !IsSpace(s[k])
  }

  // ---------------------------------------------------------------------
  // Separators: `sep.join(parts)` and `s.split(sep)`
  // ---------------------------------------------------------------------

  /** `sep` occurs in `s` starting at position `k`. */
  predicate OccursAt(s: string, sep: string, k: int) {
    0 <= k && k + |sep| <= |s| && s[k..k + |sep|] == sep
  }

  predicate Contains(s: string, sep: string) {
    exists k :: 0 <= k <= |s| && OccursAt(s, sep, k)
  }

  /** Position of the leftmost occurrence of `sep` in `s`, as `str.find`
      reports it. */
  function IndexOf(s: string, sep: string): (r: Option<nat>)
    requires sep != []
    ensures r.Some? ==> r.value + |sep| <= |s|
    decreases |s|
  {
    if |s| < |sep| then None
    else if s[..|sep|] == sep then Some(0)
    else
      match IndexOf(s[1..], sep)
      case None => None
      case Some(k) => Some(k + 1)
  }

  /** What IndexOf reports is an occurrence of the separator. */
  lemma {:induction false} IndexOfOccurs(s: string, sep: string)
    requires sep != []
    ensures IndexOf(s, sep).Some? ==> OccursAt(s, sep, IndexOf(s, sep).value)
    decreases |s|
  {
    if |s| >= |sep| && s[..|sep|] != sep {
      IndexOfOccurs(s[1..], sep);
      if IndexOf(s[1..], sep).Some? {
        OccursInTail(s, sep, IndexOf(s[1..], sep).value + 1);
      }
    }
  }

  /** IndexOf reports the leftmost occurrence, and reports none only when
      there is none. */
  lemma {:induction false} IndexOfLeftmost(s: string, sep: string)
    requires sep != []
    ensures IndexOf(s, sep).Some? ==> forall k :: 0 <= k < IndexOf(s, sep).value ==> !OccursAt(s, sep, k)
    ensures IndexOf(s, sep).None? <==> !Contains(s, sep)
    decreases |s|
  {
    IndexOfOccurs(s, sep);
    if IndexOf(s, sep).Some? {
      assert OccursAt(s, sep, IndexOf(s, sep).value);
    }
    if |s| >= |sep| && s[..|sep|] != sep {
      var tail := s[1..];
      IndexOfLeftmost(tail, sep);
      assert !OccursAt(s, sep, 0);
      match IndexOf(tail, sep)
      case Some(j) =>
        forall k | 1 <= k < j + 1 ensures !OccursAt(s, sep, k) {
          OccursInTail(s, sep, k);
        }
      case None =>
        forall k | 1 <= k <= |s| ensures !OccursAt(s, sep, k) {
          OccursInTail(s, sep, k);
        }
    }
  }

  /** An occurrence past the first position is an occurrence in the tail. */
  lemma OccursInTail(s: string, sep: string, k: nat)
    requires 1 <= k && s != []
    ensures OccursAt(s, sep, k) <==> OccursAt(s[1..], sep, k - 1)
  {
    if k + |sep| <= |s| {
      TailSlice(s, k - 1, k - 1 + |sep|);
    }
  }

  /** Slicing the tail of `s` is slicing `s` one position further on. */
  lemma TailSlice(s: string, a: nat, b: nat)
    requires a <= b <= |s| - 1
    ensures s[1..][a..b] == s[a + 1..b + 1]
  {
    forall k | 0 <= k < b - a ensures s[1..][a..b][k] == s[a + 1..b + 1][k] {
    }
  }

  /** `sep.join(parts)`: the parts with `sep` between neighbours. */
  function Join(parts: seq<string>, sep: string): string
    decreases |parts|
  {
    if |parts| == 0 then ""
    else if |parts| == 1 then parts[0]
    else parts[0] + sep + Join(parts[1..], sep)
  }

  /** `s.split(sep)` for a non-empty separator: cut `s` at every
      occurrence of `sep`, scanning left to right. */
  function Split(s: string, sep: string): seq<string>
    requires sep != []
    decreases |s|
  {
    match IndexOf(s, sep)
    case None => [s]
    case Some(i) => [s[..i]] + Split(s[i + |sep|..], sep)
  }

  /** Splitting never yields an empty list, and joining the parts back
      with the separator gives the original text. */
  lemma {:induction false} SplitJoin(s: string, sep: string)
    requires sep != []
    ensures |Split(s, sep)| >= 1
    ensures Join(Split(s, sep), sep) == s
    decreases |s|
  {
    var r := IndexOf(s, sep);
    if r.Some? {
      var i := r.value;
      var rest := s[i + |sep|..];
      SplitJoin(rest, sep);
      JoinCons(s[..i], Split(rest, sep), sep);
      CutAt(s, sep, i);
    }
  }

  lemma JoinCons(head: string, parts: seq<string>, sep: string)
    requires |parts| >= 1
    ensures Join([head] + parts, sep) == head + sep + Join(parts, sep)
  {
    assert ([head] + parts)[1..] == parts;
  }

  /** Cutting the text around an occurrence of the separator. */
  lemma CutAt(s: string, sep: string, i: nat)
    requires sep != [] && IndexOf(s, sep) == Some(i)
    ensures s == s[..i] + sep + s[i + |sep|..]
  {
    IndexOfOccurs(s, sep);
    assert s == s[..i] + s[i..i + |sep|] + s[i + |sep|..];
  }

  /** No part of a split holds the separator. */
  lemma {:induction false} SplitPartsClean(s: string, sep: string)
    requires sep != []
    ensures forall k :: 0 <= k < |Split(s, sep)| ==> !Contains(Split(s, sep)[k], sep)
    decreases |s|
  {
    IndexOfOccurs(s, sep);
    IndexOfLeftmost(s, sep);
    if IndexOf(s, sep).Some? {
      var i := IndexOf(s, sep).value;
      var rest := s[i + |sep|..];
      var parts := Split(s, sep);
      assert parts == [s[..i]] + Split(rest, sep);
      BeforeLeftmost(s, sep, i);
      SplitPartsClean(rest, sep);
      forall k | 1 <= k < |parts| ensures !Contains(parts[k], sep) {
        assert parts[k] == Split(rest, sep)[k - 1];
      }
    }
  }

  /** The text before the leftmost occurrence of the separator does not
      hold the separator. */
  lemma BeforeLeftmost(s: string, sep: string, i: nat)
    requires sep != [] && OccursAt(s, sep, i)
    requires forall k :: 0 <= k < i ==> !OccursAt(s, sep, k)
    ensures !Contains(s[..i], sep)
  {
    forall k | 0 <= k <= i && OccursAt(s[..i], sep, k) ensures false {
      assert s[..i][k..k + |sep|] == s[k..k + |sep|];
      assert OccursAt(s, sep, k);
    }
  }

  /** A text without the separator is a single part. */
  lemma SplitWithoutSeparator(s: string, sep: string)
    requires sep != [] && !Contains(s, sep)
    ensures Split(s, sep) == [s]
  {
    IndexOfLeftmost(s, sep);
  }

  // ---------------------------------------------------------------------
  // Whitespace: `s.split()[0]` and the stripping done by `int()`
  // ---------------------------------------------------------------------

  /** `s` without the leading whitespace `int()` skips. */
  function LStrip(s: string): string
    decreases |s|
  {
    if s != [] && IsIntSpace(s[0]) then LStrip(s[1..]) else s
  }

  /** `s` without the trailing whitespace `int()` skips. */
  function RStrip(s: string): string
    decreases |s|
  {
    if s != [] && IsIntSpace(s[|s| - 1]) then RStrip(s[..|s| - 1]) else s
  }

  /** The text `int()` reads its literal from. */
  function Strip(s: string): string {
    RStrip(LStrip(s))
  }

  /** LStrip removes exactly the whitespace the text starts with. */
  lemma {:induction false} LStripRemovesLeadingSpace(s: string)
    ensures |LStrip(s)| <= |s| && LStrip(s) == s[|s| - |LStrip(s)|..]
    ensures LStrip(s) == [] || !IsIntSpace(LStrip(s)[0])
    ensures forall k :: 0 <= k < |s| - |LStrip(s)| ==> IsIntSpace(s[k])
    decreases |s|
  {
    if s != [] && IsIntSpace(s[0]) {
      LStripRemovesLeadingSpace(s[1..]);
      forall k | 1 <= k < |s| - |LStrip(s)| ensures IsIntSpace(s[k]) {
        assert s[1..][k - 1] == s[k];
      }
    }
  }

  /** LStrip drops whitespace up to the first other character. */
  lemma {:induction false} LStripSkips(pre: string, s: string)
    requires forall k :: 0 <= k < |pre| ==> IsIntSpace(pre[k])
    requires s == [] || !IsIntSpace(s[0])
    ensures LStrip(pre + s) == s
    decreases |pre|
  {
    if pre == [] {
      assert pre + s == s;
    } else {
      assert (pre + s)[0] == pre[0];
      assert (pre + s)[1..] == pre[1..] + s;
      LStripSkips(pre[1..], s);
    }
  }

  /** RStrip drops whitespace back to the last other character. */
  lemma {:induction false} RStripSkips(s: string, post: string)
    requires forall k :: 0 <= k < |post| ==> IsIntSpace(post[k])
    requires s == [] || !IsIntSpace(s[|s| - 1])
    ensures RStrip(s + post) == s
    decreases |post|
  {
    if post == [] {
      assert s + post == s;
    } else {
      assert (s + post)[|s + post| - 1] == post[|post| - 1];
      assert (s + post)[..|s + post| - 1] == s + post[..|post| - 1];
      RStripSkips(s, post[..|post| - 1]);
    }
  }

  /** The longest prefix of `s` that holds no whitespace. */
  function TakeToken(s: string): string
    decreases |s|
  {
    if s == [] || IsSpace(s[0]) then [] else [s[0]] + TakeToken(s[1..])
  }

  /** A token followed by the end of the text or by whitespace is what
      TakeToken returns. */
  lemma {:induction false} TakeTokenOf(token: string, rest: string)
    requires NoSpace(token)
    requires rest == [] || IsSpace(rest[0])
    ensures TakeToken(token + rest) == token
    decreases |token|
  {
    if token == [] {
      assert token + rest == rest;
    } else {
      assert (token + rest)[0] == token[0];
      assert (token + rest)[1..] == token[1..] + rest;
      TakeTokenOf(token[1..], rest);
      assert token == [token[0]] + token[1..];
    }
  }

  /** TakeToken returns a non-empty token when the text starts with a
      character other than whitespace. */
  lemma {:induction false} TakeTokenShape(s: string)
    ensures |TakeToken(s)| <= |s| && NoSpace(TakeToken(s))
    ensures s != [] && !IsSpace(s[0]) ==> TakeToken(s) != []
    decreases |s|
  {
    if s != [] && !IsSpace(s[0]) {
      TakeTokenShape(s[1..]);
      var t := TakeToken(s[1..]);
      assert TakeToken(s) == [s[0]] + t;
      forall k | 0 <= k < |TakeToken(s)| ensures !IsSpace(TakeToken(s)[k]) {
        if k > 0 {
          assert TakeToken(s)[k] == t[k - 1];
        }
      }
    }
  }

  /** `s.split()[0]`: the first whitespace-delimited token, or None where
      Python's indexing raises because `s` is blank. */
  function FirstToken(s: string): Option<string>
    decreases |s|
  {
    if s == [] then None
    else if IsSpace(s[0]) then FirstToken(s[1..])
    else Some(TakeToken(s))
  }

  /** There is no first token exactly when the text is blank, and a first
      token is never empty and holds no whitespace. */
  lemma {:induction false} FirstTokenBlank(s: string)
    ensures FirstToken(s).None? <==> forall k :: 0 <= k < |s| ==> IsSpace(s[k])
    ensures FirstToken(s).Some? ==> FirstToken(s).value != [] && NoSpace(FirstToken(s).value)
    decreases |s|
  {
    if s != [] {
      if IsSpace(s[0]) {
        FirstTokenBlank(s[1..]);
        assert forall k :: 1 <= k < |s| ==> s[1..][k - 1] == s[k];
      } else {
        TakeTokenShape(s);
      }
    }
  }

  /** A token followed by the end of the text or by whitespace is the
      first token of the text. */
  lemma FirstTokenOf(token: string, rest: string)
    requires token != [] && NoSpace(token)
    requires rest == [] || IsSpace(rest[0])
    ensures FirstToken(token + rest) == Some(token)
  {
    assert (token + rest)[0] == token[0];
    TakeTokenOf(token, rest);
  }

  // ---------------------------------------------------------------------
  // Decimal integers: `int(text)` and `str(n)`
  // ---------------------------------------------------------------------

  function DigitValue(c: char): nat
    requires IsDigit(c)
  {
    c as int - '0' as int
  }

  function DigitChar(d: nat): (c: char)
    requires d < 10
    ensures IsDigit(c) && DigitValue(c) == d
  {
    ('0' as int + d) as char
  }

  /** The value of a string of decimal digits, most significant first. */
  function DigitsValue(s: string): nat
    requires AllDigits(s)
    decreases |s|
  {
    if s == [] then 0 else 10 * DigitsValue(s[..|s| - 1]) + DigitValue(s[|s| - 1])
  }

  /** `str(n)` for a natural number. */
  function NatToString(n: nat): (r: string)
    ensures r != [] && AllDigits(r)
    decreases n
  {
    if n < 10 then [DigitChar(n)] else NatToString(n / 10) + [DigitChar(n % 10)]
  }

  /** `str(n)` for an integer. */
  function IntToString(n: int): (r: string)
    ensures r != [] && NoSpace(r)
  {
    if n < 0 then "-" + NatToString(-n) else NatToString(n)
  }

  /** `int(s)` in base 10: optional surrounding whitespace (as `int()`
      counts it), an optional
      sign, then one or more decimal digits; None where Python raises
      ValueError. */
  function ParseInt(s: string): Option<int> {
    ParseLiteral(Strip(s))
  }

  /** An optional sign followed by one or more decimal digits. */
  function ParseLiteral(t: string): Option<int> {
    if t != [] && (t[0] == '+' || t[0] == '-') then
      var digits := t[1..];
      if digits != [] && AllDigits(digits) then
        var magnitude: int := DigitsValue(digits);
        Some(if t[0] == '-' then -magnitude else magnitude)
      else None
    else if t != [] && AllDigits(t) then Some(DigitsValue(t))
    else None
  }

  lemma {:induction false} NatDigitsRoundTrip(n: nat)
    ensures DigitsValue(NatToString(n)) == n
    decreases n
  {
    if n >= 10 {
      NatDigitsRoundTrip(n / 10);
      var s := NatToString(n);
      assert s[..|s| - 1] == NatToString(n / 10);
    }
  }

  /** Stripping leaves a text alone that neither starts nor ends with
      whitespace. */
  lemma StripUnpadded(s: string)
    requires s != [] && !IsIntSpace(s[0]) && !IsIntSpace(s[|s| - 1])
    ensures Strip(s) == s
  {
    LStripSkips([], s);
    assert [] + s == s;
    RStripSkips(s, []);
    assert s + [] == s;
  }

  /** The literal `str(n)` reads back as `n`. */
  lemma LiteralRoundTrip(n: int)
    ensures ParseLiteral(IntToString(n)) == Some(n)
  {
    var s := IntToString(n);
    if n < 0 {
      NatDigitsRoundTrip(-n);
      assert s[1..] == NatToString(-n);
    } else {
      NatDigitsRoundTrip(n);
    }
  }

  /** `int(str(n)) == n` */
  lemma ParseIntRoundTrip(n: int)
    ensures ParseInt(IntToString(n)) == Some(n)
  {
    var s := IntToString(n);
    assert !IsSpace(s[0]) && !IsSpace(s[|s| - 1]);
    StripUnpadded(s);
    LiteralRoundTrip(n);
  }

  /** `int()` ignores whitespace around the number. */
  lemma ParseIntPadded(pre: string, s: string, post: string)
    requires forall k :: 0 <= k < |pre| ==> IsIntSpace(pre[k])
    requires forall k :: 0 <= k < |post| ==> IsIntSpace(post[k])
    requires s != [] && !IsIntSpace(s[0]) && !IsIntSpace(s[|s| - 1])
    ensures ParseInt(pre + s + post) == ParseInt(s)
  {
    StripUnpadded(s);
    assert pre + s + post == pre + (s + post);
    assert (s + post)[0] == s[0];
    LStripSkips(pre, s + post);
    RStripSkips(s, post);
    assert Strip(pre + s + post) == s;
  }

  /** The separators 0x1C-0x1F split tokens but are not skipped by `int()`:
      a number behind one is a token of its own, yet no integer. */
  lemma SeparatorSplitsButDoesNotParse(d: char)
    requires IsDigit(d)
    ensures FirstToken([28 as char, d]) == Some([d])
    ensures ParseInt([28 as char, d]) == None
  {
    assert [28 as char, d][1..] == [d];
    TakeTokenOf([d], []);
    assert [d] + [] == [d];
  }
}
