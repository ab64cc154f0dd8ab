/** The string operations the viewer relies on: String.prototype.toLowerCase
    and toUpperCase (ASCII letters only), trim, includes, the decimal form of
    an id, padStart, and the "first letter in upper case" display of a name.
    Strings are sequences of Unicode scalar values. */
module Text {

  predicate IsAsciiUpper(c: char) { 'A' <= c <= 'Z' }

  predicate IsAsciiLower(c: char) { 'a' <= c <= 'z' }

  predicate IsDigit(c: char) { '0' <= c <= '9' }

  function LowerChar(c: char): (d: char)
    ensures !IsAsciiUpper(d)
  {
    if IsAsciiUpper(c) then (c as int - 'A' as int + 'a' as int) as char else c
  }

  function UpperChar(c: char): (d: char)
    ensures !IsAsciiLower(d)
  {
    if IsAsciiLower(c) then (c as int - 'a' as int + 'A' as int) as char else c
  }

  /** Changing a letter to upper case and back gives the lower-case letter
      again, and the two conversions agree on everything that is not a letter. */
  lemma CaseRoundTrip(c: char)
    ensures LowerChar(UpperChar(c)) == LowerChar(c)
    ensures IsAsciiLower(c) ==> LowerChar(UpperChar(c)) == c
    ensures IsAsciiUpper(c) ==> UpperChar(LowerChar(c)) == c
  {
  }

  /** String.prototype.toLowerCase: every ASCII capital becomes the small
      letter it came from; every other character is kept. */
  function ToLower(s: string): (r: string)
    ensures |r| == |s|
    ensures forall i :: 0 <= i < |r| ==> !IsAsciiUpper(r[i])
    ensures forall i :: 0 <= i < |s| && !IsAsciiUpper(s[i]) ==> r[i] == s[i]
    ensures forall i :: 0 <= i < |s| && IsAsciiUpper(s[i]) ==> UpperChar(r[i]) == s[i]
  {
    seq(|s|, i requires 0 <= i < |s| => LowerChar(s[i]))
  }

  /** A string without capitals is its own lower case. */
  lemma ToLowerUnchanged(s: string)
    requires forall i :: 0 <= i < |s| ==> !IsAsciiUpper(s[i])
    ensures ToLower(s) == s
  {
  }

  lemma ToLowerIdempotent(s: string)
    ensures ToLower(ToLower(s)) == ToLower(s)
  {
  }

  /** The white space and line terminators that String.prototype.trim
      removes (ECMAScript's WhiteSpace and LineTerminator productions): the
      space, tab and line breaks are among them, and no letter or digit is. */
  predicate IsWhitespace(c: char)
    ensures c == ' ' || c == '\t' || c == '\n' || c == '\r' ==> IsWhitespace(c)
    ensures IsWhitespace(c) ==> !IsDigit(c) && !IsAsciiUpper(c) && !IsAsciiLower(c)
  {
    c == '\t' || c == '\n' || c == '\U{000B}' || c == '\U{000C}' || c == '\r' ||
    c == ' ' || c == '\U{00A0}' || c == '\U{1680}' || ('\U{2000}' <= c <= '\U{200A}') ||
    c == '\U{2028}' || c == '\U{2029}' || c == '\U{202F}' || c == '\U{205F}' ||
    c == '\U{3000}' || c == '\U{FEFF}'
  }

  /** t occurs in s starting at index i. */
  ghost predicate OccursAt(s: string, t: string, i: int)
  {
    0 <= i && i + |t| <= |s| && s[i..i + |t|] == t
  }

  /** s without its leading white space. */
  function TrimStart(s: string): (r: string)
    ensures |r| <= |s|
    ensures forall i :: 0 <= i < |s| - |r| ==> IsWhitespace(s[i])
    ensures r == [] || !IsWhitespace(r[0])
  {
    if s != [] && IsWhitespace(s[0]) then TrimStart(s[1..]) else s
  }

  /** s without its trailing white space. */
  function TrimEnd(s: string): (r: string)
    ensures |r| <= |s|
    ensures forall i :: |r| <= i < |s| ==> IsWhitespace(s[i])
    ensures r == [] || !IsWhitespace(r[|r| - 1])
  {
    if s != [] && IsWhitespace(s[|s| - 1]) then TrimEnd(s[..|s| - 1]) else s
  }

  /** String.prototype.trim: the part of s between its leading and its
      trailing white space. It is empty exactly when s is all white space. */
  function Trim(s: string): (r: string)
    ensures r == [] <==> forall i :: 0 <= i < |s| ==> IsWhitespace(s[i])
    ensures r != [] ==> !IsWhitespace(r[0]) && !IsWhitespace(r[|r| - 1])
  {
    var t := TrimStart(s);
    TrimStartIsSuffix(s);
    TrimEndIsPrefix(t);
    TrimEnd(t)
  }

  /** trimStart only removes characters at the front. */
  lemma {:induction false} TrimStartIsSuffix(s: string)
    ensures TrimStart(s) == s[|s| - |TrimStart(s)|..]
  {
    if s != [] && IsWhitespace(s[0]) {
      TrimStartIsSuffix(s[1..]);
    }
  }

  /** trimEnd only removes characters at the back. */
  lemma {:induction false} TrimEndIsPrefix(s: string)
    ensures TrimEnd(s) == s[..|TrimEnd(s)|]
  {
    if s != [] && IsWhitespace(s[|s| - 1]) {
      TrimEndIsPrefix(s[..|s| - 1]);
    }
  }

  /** t occurs in s at index k, and everything of s before and after that
      occurrence is white space. */
  ghost predicate InsideWhitespace(s: string, t: string, k: int)
  {
    OccursAt(s, t, k) &&
    (forall i :: 0 <= i < k ==> IsWhitespace(s[i])) &&
    (forall i :: k + |t| <= i < |s| ==> IsWhitespace(s[i]))
  }

  /** What trim keeps is one contiguous piece of s, and all it removes is
      white space. */
  lemma TrimIsInfix(s: string)
    ensures exists k :: InsideWhitespace(s, Trim(s), k)
  {
    var t := TrimStart(s);
    var r := TrimEnd(t);
    TrimStartIsSuffix(s);
    TrimEndIsPrefix(t);
    assert s[|s| - |t|..][..|r|] == s[|s| - |t|..|s| - |t| + |r|];
    assert Trim(s) == r;
    assert InsideWhitespace(s, r, |s| - |t|);
  }

  /** A string that neither starts nor ends with white space is its own trim. */
  lemma TrimUnchanged(s: string)
    requires s == [] || (!IsWhitespace(s[0]) && !IsWhitespace(s[|s| - 1]))
    ensures Trim(s) == s
  {
  }

  lemma TrimIdempotent(s: string)
    ensures Trim(Trim(s)) == Trim(s)
  {
    TrimUnchanged(Trim(s));
  }

  /** String.prototype.includes. */
  function Contains(s: string, t: string): (found: bool)
    ensures t == [] ==> found
    ensures found ==> |t| <= |s|
    decreases |s|
  {
    if |t| > |s| then false else s[..|t|] == t || Contains(s[1..], t)
  }

  /** includes answers true exactly when the term occurs somewhere in s. */
  lemma {:induction false} ContainsIffOccurs(s: string, t: string)
    ensures Contains(s, t) <==> exists i :: OccursAt(s, t, i)
    decreases |s|
  {
    if |t| <= |s| {
      if s[..|t|] == t {
        assert OccursAt(s, t, 0);
      } else {
        ContainsIffOccurs(s[1..], t);
        if Contains(s[1..], t) {
          var i :| OccursAt(s[1..], t, i);
          assert s[1..][i..i + |t|] == s[i + 1..i + 1 + |t|];
          assert OccursAt(s, t, i + 1);
        }
        if i :| OccursAt(s, t, i) {
          assert i != 0;
          assert s[1..][i - 1..i - 1 + |t|] == s[i..i + |t|];
          assert OccursAt(s[1..], t, i - 1);
        }
      }
    }
  }

  /** A non-empty term can only occur where its first character does. */
  lemma {:induction false} ContainsNeedsFirstChar(s: string, t: string)
    requires t != []
    ensures Contains(s, t) ==> t[0] in s
    decreases |s|
  {
    if |t| <= |s| && s[..|t|] != t {
      ContainsNeedsFirstChar(s[1..], t);
    }
  }

  function DigitChar(d: nat): (c: char)
    requires d < 10
    ensures IsDigit(c)
  {
    ('0' as int + d) as char
  }

  /** The value of a string of decimal digits, leading zeros allowed. */
  function DigitsValue(s: string): nat
    requires forall i :: 0 <= i < |s| ==> IsDigit(s[i])
  {
    if s == [] then 0 else DigitsValue(s[..|s| - 1]) * 10 + DigitValue(s[|s| - 1])
  }

  function DigitValue(c: char): nat
    requires IsDigit(c)
  {
    c as int - '0' as int
  }

  /** Number.prototype.toString for a non-negative integer: its decimal
      digits, with no leading zero except for 0 itself. */
  function DecimalString(n: nat): (s: string)
    ensures s != [] && forall i :: 0 <= i < |s| ==> IsDigit(s[i])
    ensures s[0] == '0' ==> s == "0"
    ensures n < 10 <==> |s| == 1
  {
    if n < 10 then [DigitChar(n)] else DecimalString(n / 10) + [DigitChar(n % 10)]
  }

  /** Reading the decimal string back gives the number. */
  lemma {:induction false} DecimalStringRoundTrip(n: nat)
    ensures DigitsValue(DecimalString(n)) == n
  {
    if n >= 10 {
      DecimalStringRoundTrip(n / 10);
      var s := DecimalString(n);
      assert s[..|s| - 1] == DecimalString(n / 10);
    }
  }

  function Zeros(k: nat): (z: string)
    ensures |z| == k && forall i :: 0 <= i < k ==> z[i] == '0'
  {
    seq(k, _ => '0')
  }

  /** Leading zeros do not change the value of a digit string. */
  lemma {:induction false} LeadingZerosIgnored(k: nat, s: string)
    requires forall i :: 0 <= i < |s| ==> IsDigit(s[i])
    ensures DigitsValue(Zeros(k) + s) == DigitsValue(s)
    decreases |s|, k
  {
    if s == [] {
      assert Zeros(k) + s == Zeros(k);
      if k > 0 {
        assert Zeros(k)[..k - 1] == Zeros(k - 1) + [];
        LeadingZerosIgnored(k - 1, []);
      }
    } else {
      var z := Zeros(k) + s;
      assert z[..|z| - 1] == Zeros(k) + s[..|s| - 1];
      LeadingZerosIgnored(k, s[..|s| - 1]);
    }
  }

  /** String.prototype.padStart with a one-character fill: s itself when it
      already has width characters, otherwise s behind enough fill characters
      to make it exactly width long. */
  function PadStart(s: string, width: nat, fill: char): (r: string)
    ensures |r| == if |s| >= width then |s| else width
    ensures r[|r| - |s|..] == s
    ensures forall i :: 0 <= i < |r| - |s| ==> r[i] == fill
  {
    if |s| >= width then s else seq(width - |s|, _ => fill) + s
  }

  /** The id as shown on a card and in the detail view:
      String(id).padStart(3, '0'). It is at least three characters long, reads
      back as the id, and is the plain decimal id once that has three or more
      digits. */
  function PaddedId(id: nat): (r: string)
    ensures |r| == if |DecimalString(id)| >= 3 then |DecimalString(id)| else 3
    ensures forall i :: 0 <= i < |r| ==> IsDigit(r[i])
    ensures DigitsValue(r) == id
    ensures |DecimalString(id)| >= 3 ==> r == DecimalString(id)
  {
    PaddedIdValue(id);
    PadStart(DecimalString(id), 3, '0')
  }

  lemma PaddedIdValue(id: nat)
    ensures forall i :: 0 <= i < |PadStart(DecimalString(id), 3, '0')| ==>
      IsDigit(PadStart(DecimalString(id), 3, '0')[i])
    ensures DigitsValue(PadStart(DecimalString(id), 3, '0')) == id
  {
    var d := DecimalString(id);
    var r := PadStart(d, 3, '0');
    PadWithZeros(d, 3);
    LeadingZerosIgnored(|r| - |d|, d);
    DecimalStringRoundTrip(id);
  }

  /** Padding with '0' puts a run of zeros in front of s. */
  lemma PadWithZeros(s: string, width: nat)
    ensures PadStart(s, width, '0') == Zeros(|PadStart(s, width, '0')| - |s|) + s
  {
    var r := PadStart(s, width, '0');
    assert r[..|r| - |s|] == Zeros(|r| - |s|);
    assert r == r[..|r| - |s|] + r[|r| - |s|..];
  }

  /** name.charAt(0).toUpperCase() + name.slice(1): the first character in
      upper case, the rest untouched; the empty name stays empty. Only the
      case of the first letter changes. */
  function Capitalize(s: string): (r: string)
    ensures |r| == |s|
    ensures s != [] ==> !IsAsciiLower(r[0]) && LowerChar(r[0]) == LowerChar(s[0])
    ensures s != [] ==> r[1..] == s[1..]
  {
    if s == [] then "" else CaseRoundTrip(s[0]); [UpperChar(s[0])] + s[1..]
  }

  lemma CapitalizeIdempotent(s: string)
    ensures Capitalize(Capitalize(s)) == Capitalize(s)
  {
  }

  /** The capitalised name and the name are the same ignoring case, so a name
      search (which compares lower-cased names) cannot tell them apart. */
  lemma CapitalizeSameLowerCase(s: string)
    ensures ToLower(Capitalize(s)) == ToLower(s)
  {
    if s != [] {
      CaseRoundTrip(s[0]);
      assert ToLower(Capitalize(s))[0] == ToLower(s)[0];
    }
  }

  /** For a name with no capitals, as the catalogue's names are, lower-casing
      the displayed name gives the name back. */
  lemma CapitalizeLowerRoundTrip(s: string)
    requires forall i :: 0 <= i < |s| ==> !IsAsciiUpper(s[i])
    ensures ToLower(Capitalize(s)) == s
  {
    CapitalizeSameLowerCase(s);
  }
}
