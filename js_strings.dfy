/**
 * The JavaScript string operations the page code relies on: String.prototype.trim,
 * split and Array.prototype.join on one character, startsWith, includes, a global
 * replace of one character, class-list tokenising and decimal rendering of numbers.
 */
module JsStrings {

  /** The characters String.prototype.trim removes: WhiteSpace and LineTerminator. */
  predicate IsSpace(c: char) {
    || c == '\t' || c == '\n' || c == '\U{000B}' || c == '\U{000C}' || c == '\r' || c == ' '
    || c == '\U{00A0}' || c == '\U{1680}' || ('\U{2000}' <= c <= '\U{200A}')
    || c == '\U{2028}' || c == '\U{2029}' || c == '\U{202F}' || c == '\U{205F}'
    || c == '\U{3000}' || c == '\U{FEFF}'
  }

  /** No leading and no trailing whitespace. */
  predicate IsTrimmed(s: string) {
    s == [] || (!IsSpace(s[0]) && !IsSpace(s[|s| - 1]))
  }

  /** `s` without its leading whitespace. */
  function TrimStart(s: string): string
    decreases |s|
  {
    if |s| > 0 && IsSpace(s[0]) then TrimStart(s[1..]) else s
  }

  /** `s` without its trailing whitespace. */
  function TrimEnd(s: string): string
    decreases |s|
  {
    if |s| > 0 && IsSpace(s[|s| - 1]) then TrimEnd(s[..|s| - 1]) else s
  }

  /** String.prototype.trim. */
  function Trim(s: string): string {
    TrimEnd(TrimStart(s))
  }

  /** Only whitespace: a line that `line.trim()` turns into the falsy empty string (see `TrimSpec`). */
  predicate IsBlank(s: string) {
    forall i :: 0 <= i < |s| ==> IsSpace(s[i])
  }

  /** TrimStart removes a run of whitespace from the front, and all of it. */
  lemma {:induction false} TrimStartSpec(s: string)
    ensures |TrimStart(s)| <= |s| && TrimStart(s) == s[|s| - |TrimStart(s)|..]
    ensures TrimStart(s) == [] || !IsSpace(TrimStart(s)[0])
    ensures IsBlank(s[..|s| - |TrimStart(s)|])
    decreases |s|
  {
    if |s| > 0 && IsSpace(s[0]) {
      TrimStartSpec(s[1..]);
      var k := |s| - |TrimStart(s)|;
      assert s[..k] == [s[0]] + s[1..][..k - 1];
    }
  }

  /** TrimEnd removes a run of whitespace from the back, and all of it. */
  lemma {:induction false} TrimEndSpec(s: string)
    ensures |TrimEnd(s)| <= |s| && TrimEnd(s) == s[..|TrimEnd(s)|]
    ensures TrimEnd(s) == [] || !IsSpace(TrimEnd(s)[|TrimEnd(s)| - 1])
    ensures IsBlank(s[|TrimEnd(s)|..])
    decreases |s|
  {
    if |s| > 0 && IsSpace(s[|s| - 1]) {
      var t := s[..|s| - 1];
      TrimEndSpec(t);
      var k := |TrimEnd(s)|;
      assert s[k..] == t[k..] + [s[|s| - 1]];
    }
  }

  /** The trimmed string has no surrounding whitespace, is a piece of the input, and is empty exactly for a blank input. */
  lemma TrimSpec(s: string)
    ensures IsTrimmed(Trim(s))
    ensures |Trim(s)| <= |s|
    ensures forall c :: c in Trim(s) ==> c in s
    ensures Trim(s) == [] <==> IsBlank(s)
  {
    var t := TrimStart(s);
    TrimStartSpec(s);
    TrimEndSpec(t);
    var r := TrimEnd(t);
    assert r != [] ==> r[0] == t[0];
    forall c | c in r ensures c in s {
      assert c in t;
    }
    if r == [] {
      assert t == t[|r|..];
      assert s == s[..|s| - |t|] + t;
    } else {
      assert !IsSpace(s[|s| - |t|]);
    }
  }

  lemma TrimOfTrimmed(s: string)
    requires IsTrimmed(s)
    ensures Trim(s) == s
  {
    assert TrimStart(s) == s;
  }

  lemma NotInTrim(s: string, c: char)
    requires c !in s
    ensures c !in Trim(s)
  {
    TrimSpec(s);
  }

  /** Regrouping a concatenation, stated once so that proofs about long texts need not rediscover it. */
  lemma ConcatAssoc<T>(x: seq<T>, y: seq<T>, z: seq<T>)
    ensures (x + y) + z == x + (y + z)
  {
  }

  /** String.prototype.startsWith. */
  predicate StartsWith(s: string, prefix: string) {
    |prefix| <= |s| && s[..|prefix|] == prefix
  }

  /** String.prototype.includes with a string argument. */
  predicate IsSubstring(needle: string, s: string)
    decreases |s|
  {
    StartsWith(s, needle) || (|s| > 0 && IsSubstring(needle, s[1..]))
  }

  lemma {:induction false} SubstringOfSuffix(needle: string, front: string)
    ensures IsSubstring(needle, front + needle)
    decreases |front|
  {
    if front == [] {
      assert front + needle == needle;
    } else {
      assert (front + needle)[1..] == front[1..] + needle;
      SubstringOfSuffix(needle, front[1..]);
    }
  }

  /** String.prototype.replace(/c/g, ''): every occurrence of `c` removed. */
  function RemoveAll(s: string, c: char): (r: string)
    ensures c !in r
    ensures multiset(r) == multiset(s)[c := 0]
    ensures c !in s ==> r == s
  {
    if s == [] then []
    else
      assert s == [s[0]] + s[1..];
      (if s[0] == c then [] else [s[0]]) + RemoveAll(s[1..], c)
  }

  /** Index of the first occurrence of `c`. */
  function IndexOf(s: string, c: char): (k: nat)
    requires c in s
    ensures k < |s| && s[k] == c && c !in s[..k]
  {
    if s[0] == c then 0
    else
      assert s == [s[0]] + s[1..];
      var k := 1 + IndexOf(s[1..], c);
      assert s[..k] == [s[0]] + s[1..][..k - 1];
      k
  }

  /** String.prototype.split with a one-character separator. */
  function Split(s: string, d: char): (parts: seq<string>)
    ensures |parts| >= 1
    ensures forall i :: 0 <= i < |parts| ==> d !in parts[i]
    decreases |s|
  {
    if d in s then
      var k := IndexOf(s, d);
      [s[..k]] + Split(s[k + 1..], d)
    else
      [s]
  }

  /** Array.prototype.join with a one-character separator. */
  function Join(parts: seq<string>, d: char): string {
    if |parts| == 0 then ""
    else if |parts| == 1 then parts[0]
    else parts[0] + [d] + Join(parts[1..], d)
  }

  lemma {:induction false} JoinSplit(s: string, d: char)
    ensures Join(Split(s, d), d) == s
    decreases |s|
  {
    if d in s {
      var k := IndexOf(s, d);
      var rest := Split(s[k + 1..], d);
      assert Split(s, d) == [s[..k]] + rest;
      assert ([s[..k]] + rest)[1..] == rest;
      JoinSplit(s[k + 1..], d);
      assert s == s[..k] + [d] + s[k + 1..];
    }
  }

  /** Splitting at the first separator peels off the text before it. */
  lemma SplitFirst(front: string, d: char, back: string)
    requires d !in front
    ensures Split(front + [d] + back, d) == [front] + Split(back, d)
  {
    var s := front + [d] + back;
    assert s[|front|] == d;
    var k := IndexOf(s, d);
    assert s[..k] == front;
    assert s[k + 1..] == back;
  }

  lemma {:induction false} SplitJoin(parts: seq<string>, d: char)
    requires |parts| >= 1
    requires forall i :: 0 <= i < |parts| ==> d !in parts[i]
    ensures Split(Join(parts, d), d) == parts
    decreases |parts|
  {
    if |parts| > 1 {
      var back := Join(parts[1..], d);
      calc {
        Split(Join(parts, d), d);
        { SplitFirst(parts[0], d, back); }
        [parts[0]] + Split(back, d);
        { SplitJoin(parts[1..], d); }
        [parts[0]] + parts[1..];
        { assert parts == [parts[0]] + parts[1..]; }
        parts;
      }
    }
  }

  /** Every part followed by `d`: the text `parts.map(p => p + d).join('')`. */
  function Terminated(parts: seq<string>, d: char): string {
    if parts == [] then "" else parts[0] + [d] + Terminated(parts[1..], d)
  }

  /** Splitting a text whose every line ends in `d` gives the lines and one empty tail. */
  lemma {:induction false} SplitTerminated(parts: seq<string>, d: char)
    requires forall i :: 0 <= i < |parts| ==> d !in parts[i]
    ensures Split(Terminated(parts, d), d) == parts + [""]
  {
    if parts != [] {
      var back := Terminated(parts[1..], d);
      calc {
        Split(Terminated(parts, d), d);
        { SplitFirst(parts[0], d, back); }
        [parts[0]] + Split(back, d);
        { SplitTerminated(parts[1..], d); }
        [parts[0]] + (parts[1..] + [""]);
        { assert parts == [parts[0]] + parts[1..]; }
        parts + [""];
      }
    } else {
      assert d !in "";
    }
  }

  /** `lines.filter(l => l.trim())`: the lines that are not blank, in order. */
  function FilterNonBlank(lines: seq<string>): (r: seq<string>)
    ensures |r| <= |lines|
  {
    if lines == [] then []
    else
      assert lines == [lines[0]] + lines[1..];
      (if IsBlank(lines[0]) then [] else [lines[0]]) + FilterNonBlank(lines[1..])
  }

  lemma {:induction false} FilterNonBlankAppend(a: seq<string>, b: seq<string>)
    ensures FilterNonBlank(a + b) == FilterNonBlank(a) + FilterNonBlank(b)
    decreases |a|
  {
    if a == [] {
      assert a + b == b;
    } else {
      var h := if IsBlank(a[0]) then [] else [a[0]];
      calc {
        FilterNonBlank(a + b);
        { assert (a + b)[0] == a[0]; }
        h + FilterNonBlank((a + b)[1..]);
        { assert (a + b)[1..] == a[1..] + b; }
        h + FilterNonBlank(a[1..] + b);
        { FilterNonBlankAppend(a[1..], b); }
        h + (FilterNonBlank(a[1..]) + FilterNonBlank(b));
        (h + FilterNonBlank(a[1..])) + FilterNonBlank(b);
      }
    }
  }

  /** The filter keeps exactly the non-blank lines. */
  lemma {:induction false} FilterNonBlankMembers(lines: seq<string>, x: string)
    ensures x in FilterNonBlank(lines) <==> x in lines && !IsBlank(x)
  {
    if lines != [] {
      FilterNonBlankMembers(lines[1..], x);
      assert lines == [lines[0]] + lines[1..];
    }
  }

  lemma {:induction false} FilterNonBlankOfNonBlank(lines: seq<string>)
    requires forall i :: 0 <= i < |lines| ==> !IsBlank(lines[i])
    ensures FilterNonBlank(lines) == lines
  {
    if lines != [] {
      calc {
        FilterNonBlank(lines);
        { assert !IsBlank(lines[0]); }
        [lines[0]] + FilterNonBlank(lines[1..]);
        { FilterNonBlankOfNonBlank(lines[1..]); }
        [lines[0]] + lines[1..];
        { assert lines == [lines[0]] + lines[1..]; }
        lines;
      }
    }
  }

  /** The separators of a class attribute (ASCII whitespace). */
  predicate IsAsciiSpace(c: char) {
    c == ' ' || c == '\t' || c == '\n' || c == '\U{000C}' || c == '\r'
  }

  predicate IsClassToken(w: string) {
    w != [] && forall i :: 0 <= i < |w| ==> !IsAsciiSpace(w[i])
  }

  function TokenLength(s: string): (k: nat)
    requires s != [] && !IsAsciiSpace(s[0])
    ensures 1 <= k <= |s| && IsClassToken(s[..k]) && (k == |s| || IsAsciiSpace(s[k]))
  {
    if |s| == 1 || IsAsciiSpace(s[1]) then 1
    else
      var k := 1 + TokenLength(s[1..]);
      assert s[..k] == [s[0]] + s[1..][..k - 1];
      k
  }

  /** The class list an element gets from its class attribute. */
  function ClassTokens(s: string): (ws: seq<string>)
    ensures forall i :: 0 <= i < |ws| ==> IsClassToken(ws[i])
    decreases |s|
  {
    if s == [] then []
    else if IsAsciiSpace(s[0]) then ClassTokens(s[1..])
    else
      var k := TokenLength(s);
      [s[..k]] + ClassTokens(s[k..])
  }

  lemma {:induction false} TokenLengthOf(w: string, rest: string)
    requires IsClassToken(w)
    ensures TokenLength(w + " " + rest) == |w|
    decreases |w|
  {
    var s := w + " " + rest;
    if |w| > 1 {
      assert s[1..] == w[1..] + " " + rest;
      TokenLengthOf(w[1..], rest);
    }
  }

  /** A class attribute starting with a token and a space lists that token first. */
  lemma ClassTokensCons(w: string, rest: string)
    requires IsClassToken(w)
    ensures ClassTokens(w + " " + rest) == [w] + ClassTokens(rest)
  {
    var s := w + " " + rest;
    TokenLengthOf(w, rest);
    assert s[..|w|] == w;
    assert s[|w|..] == " " + rest;
    assert (" " + rest)[1..] == rest;
  }

  /** A lone token is its own class list. */
  lemma ClassTokensSingle(w: string)
    requires IsClassToken(w)
    ensures ClassTokens(w) == [w]
  {
    TokenLengthWhole(w);
    assert w[..|w|] == w && w[|w|..] == [];
  }

  lemma {:induction false} TokenLengthWhole(w: string)
    requires IsClassToken(w)
    ensures TokenLength(w) == |w|
    decreases |w|
  {
    if |w| > 1 {
      assert !IsAsciiSpace(w[1]) && IsClassToken(w[1..]);
      TokenLengthWhole(w[1..]);
    }
  }

  /** A token appended after a space is in the class list, whatever precedes it. */
  lemma {:induction false} TokenOfAppended(s: string, w: string)
    requires IsClassToken(w)
    ensures w in ClassTokens(s + " " + w)
    decreases |s|
  {
    var t := s + " " + w;
    if s == [] {
      assert t[1..] == w;
      ClassTokensSingle(w);
    } else if IsAsciiSpace(s[0]) {
      assert t[1..] == s[1..] + " " + w;
      TokenOfAppended(s[1..], w);
    } else {
      var k := TokenLength(t);
      assert t[|s|] == ' ';
      assert k <= |s|;
      assert t[k..] == s[k..] + " " + w;
      TokenOfAppended(s[k..], w);
    }
  }

  predicate IsDigit(c: char) {
    '0' <= c <= '9'
  }

  predicate AllDigits(s: string) {
    forall i :: 0 <= i < |s| ==> IsDigit(s[i])
  }

  function DigitChar(d: nat): (c: char)
    requires d < 10
    ensures IsDigit(c)
  {
    (48 + d) as char
  }

  /** Decimal rendering of a non-negative integer, as String(n) gives it. */
  function NatToString(n: nat): (s: string)
    ensures |s| >= 1 && AllDigits(s)
    ensures (|s| == 1) == (n < 10)
  {
    if n < 10 then [DigitChar(n)] else NatToString(n / 10) + [DigitChar(n % 10)]
  }

  /** Decimal rendering of any integer. */
  function IntToString(n: int): string {
    if n < 0 then "-" + NatToString(-n) else NatToString(n)
  }

  /** The value of a string of decimal digits. */
  function ParseNat(s: string): nat
    requires AllDigits(s)
  {
    if s == [] then 0 else ParseNat(s[..|s| - 1]) * 10 + (s[|s| - 1] as int - 48)
  }

  lemma {:induction false} ParseNatToString(n: nat)
    ensures ParseNat(NatToString(n)) == n
  {
    if n >= 10 {
      var s := NatToString(n);
      assert s[..|s| - 1] == NatToString(n / 10);
      ParseNatToString(n / 10);
    }
  }

  /** `String(n).padStart(2, '0')`. */
  function Pad2(n: nat): (s: string)
    ensures AllDigits(s)
    ensures n < 100 ==> |s| == 2
  {
    if n < 10 then "0" + NatToString(n) else NatToString(n)
  }

  lemma ParsePad2(n: nat)
    requires n < 100
    ensures ParseNat(Pad2(n)) == n
  {
    var s := Pad2(n);
    if n < 10 {
      assert s[..1] == "0";
      assert ParseNat(s[..1]) == 0;
    } else {
      ParseNatToString(n);
    }
  }
}
