/** The JavaScript string primitives the board relies on, over `seq<char>`:
    `String.prototype.split` on one character, `trim`, decimal number-to-string
    conversion, and `parseInt(s, 10)`. Whitespace is the ASCII subset of
    ECMAScript's white space and line terminators. */
module Text {
  import opened Util

  /** ASCII white space and line terminators: tab, LF, VT, FF, CR and space. */
  predicate IsSpace(c: char) {
    c == ' ' || c == '\t' || c == '\n' || c == '\r' || c == '\U{000B}' || c == '\U{000C}'
  }

  predicate AllSpace(s: string) {
    forall j :: 0 <= j < |s| ==> IsSpace(s[j])
  }

  predicate IsDigit(c: char) {
    '0' <= c <= '9'
  }

  predicate AllDigits(s: string) {
    forall j :: 0 <= j < |s| ==> IsDigit(s[j])
  }

  // ---------------------------------------------------------------------------
  // trim
  // ---------------------------------------------------------------------------

  /** Number of white-space characters at the front of `s`. */
  function LeadingSpaces(s: string): (k: nat)
    ensures k <= |s|
    ensures forall j :: 0 <= j < k ==> IsSpace(s[j])
    ensures k < |s| ==> !IsSpace(s[k])
  {
    if |s| > 0 && IsSpace(s[0]) then
      var k := 1 + LeadingSpaces(s[1..]);
      assert forall j :: 1 <= j < k ==> s[j] == s[1..][j - 1];
      k
    else
      0
  }

  /** Number of white-space characters at the end of `s`. */
  function TrailingSpaces(s: string): (k: nat)
    ensures k <= |s|
    ensures forall j :: |s| - k <= j < |s| ==> IsSpace(s[j])
    ensures k < |s| ==> !IsSpace(s[|s| - k - 1])
  {
    if |s| > 0 && IsSpace(s[|s| - 1]) then
      1 + TrailingSpaces(s[..|s| - 1])
    else
      0
  }

  /** `s.trim()`: `s` without its leading and trailing white space. The result
      neither starts nor ends with white space; `TrimCutsOnlySpace` shows it is
      the slice of `s` left once the white space at both ends is cut. */
  function Trim(s: string): (r: string)
    ensures |r| == 0 || (!IsSpace(r[0]) && !IsSpace(r[|r| - 1]))
  {
    var a := LeadingSpaces(s);
    if a == |s| then []
    else
      var b := TrailingSpaces(s);
      assert a < |s| - b;
      s[a..|s| - b]
  }

  /** Trimming cuts white space only: the trim sits in `s` with nothing but
      white space before and after it. */
  lemma {:induction false} TrimCutsOnlySpace(s: string)
    ensures var r := Trim(s); exists i :: 0 <= i <= |s| - |r| && s[i..i + |r|] == r
                                         && AllSpace(s[..i]) && AllSpace(s[i + |r|..])
  {
    var a := LeadingSpaces(s);
    assert AllSpace(s[..a]);
    if a == |s| {
      assert s[a..a] == Trim(s);
    } else {
      var e := |s| - TrailingSpaces(s);
      assert s[a..e] == Trim(s);
      assert AllSpace(s[e..]);
    }
  }

  /** Every character of the trim is one of `s`'s. */
  lemma {:induction false} TrimKeepsCharacters(s: string)
    ensures forall c :: c in Trim(s) ==> c in s
  {
    var r := Trim(s);
    if |r| > 0 {
      var a := LeadingSpaces(s);
      assert r == s[a..|s| - TrailingSpaces(s)];
      forall c | c in r ensures c in s {
        var j :| 0 <= j < |r| && r[j] == c;
        assert s[a + j] == c;
      }
    }
  }

  /** A string with no white space at either end is its own trim. */
  lemma {:induction false} TrimOfTrimmed(s: string)
    requires |s| == 0 || (!IsSpace(s[0]) && !IsSpace(s[|s| - 1]))
    ensures Trim(s) == s
  {
    if |s| > 0 {
      assert LeadingSpaces(s) == 0;
      assert TrailingSpaces(s) == 0;
      assert s[0..|s|] == s;
    }
  }

  /** A non-space followed by white space: the trailing white space is exactly
      that white space. */
  lemma {:induction false} TrailingSpacesOf(rest: string, ws: string)
    requires AllSpace(ws)
    requires |rest| == 0 || !IsSpace(rest[|rest| - 1])
    ensures TrailingSpaces(rest + ws) == |ws|
  {
    if |ws| > 0 {
      var s := rest + ws;
      assert s[|s| - 1] == ws[|ws| - 1];
      assert s[..|s| - 1] == rest + ws[..|ws| - 1];
      TrailingSpacesOf(rest, ws[..|ws| - 1]);
    } else {
      assert rest + ws == rest;
    }
  }

  /** Trimming white space off both ends of a trimmed string gives it back;
      in particular a string of white space alone trims to the empty string. */
  lemma {:induction false} TrimOfPadded(ws1: string, t: string, ws2: string)
    requires AllSpace(ws1) && AllSpace(ws2)
    requires |t| == 0 || (!IsSpace(t[0]) && !IsSpace(t[|t| - 1]))
    ensures Trim(ws1 + t + ws2) == t
  {
    var s := ws1 + t + ws2;
    if |t| > 0 {
      assert s == ws1 + (t + ws2);
      assert (t + ws2)[0] == t[0];
      LeadingSpacesOf(ws1, t + ws2);
      assert (ws1 + t)[|ws1 + t| - 1] == t[|t| - 1];
      TrailingSpacesOf(ws1 + t, ws2);
      assert s[|ws1|..|s| - |ws2|] == t;
    } else {
      assert AllSpace(s);
      LeadingSpacesOf(s, "");
      assert s + "" == s;
    }
  }

  // ---------------------------------------------------------------------------
  // split / join on one separator character
  // ---------------------------------------------------------------------------

  /** Index of the first occurrence of `c` in `s`. */
  function IndexOf(s: string, c: char): (k: nat)
    requires c in s
    ensures k < |s| && s[k] == c && c !in s[..k]
  {
    if s[0] == c then 0
    else
      var k := 1 + IndexOf(s[1..], c);
      assert s[..k] == [s[0]] + s[1..][..k - 1];
      k
  }

  /** The pieces glued back together with `sep` between consecutive pieces. */
  function Join(pieces: seq<string>, sep: char): string
    requires |pieces| >= 1
  {
    if |pieces| == 1 then pieces[0] else pieces[0] + [sep] + Join(pieces[1..], sep)
  }

  /** `s.split(sep)`: always at least one piece (the empty string splits into one
      empty piece), no piece contains the separator, and joining the pieces with
      the separator gives back `s`. */
  function Split(s: string, sep: char): (r: seq<string>)
    ensures |r| >= 1
    ensures forall i :: 0 <= i < |r| ==> sep !in r[i]
    ensures Join(r, sep) == s
    decreases |s|
  {
    if sep !in s then [s]
    else
      var k := IndexOf(s, sep);
      var rest := Split(s[k + 1..], sep);
      var r := [s[..k]] + rest;
      assert r[1..] == rest;
      assert s == s[..k] + [sep] + s[k + 1..];
      r
  }

  /** The first separator in `p + [sep] + rest` is the one right after `p`
      when `p` holds none. */
  lemma {:induction false} IndexOfAfter(p: string, sep: char, rest: string)
    requires sep !in p
    ensures IndexOf(p + [sep] + rest, sep) == |p|
  {
    if |p| > 0 {
      assert (p + [sep] + rest)[1..] == p[1..] + [sep] + rest;
      IndexOfAfter(p[1..], sep, rest);
    }
  }

  /** Splitting a join of separator-free pieces gives the pieces back. */
  lemma {:induction false} SplitJoin(pieces: seq<string>, sep: char)
    requires |pieces| >= 1
    requires forall i :: 0 <= i < |pieces| ==> sep !in pieces[i]
    ensures Split(Join(pieces, sep), sep) == pieces
  {
    if |pieces| > 1 {
      var s := Join(pieces, sep);
      var p := pieces[0];
      var rest := Join(pieces[1..], sep);
      assert s == p + [sep] + rest;
      assert s[|p|] == sep;
      IndexOfAfter(p, sep, rest);
      assert s[..|p|] == p;
      assert s[|p| + 1..] == rest;
      SplitJoin(pieces[1..], sep);
      assert Split(s, sep) == [p] + Split(rest, sep);
      assert pieces == [p] + pieces[1..];
    }
  }

  // ---------------------------------------------------------------------------
  // decimal numerals
  // ---------------------------------------------------------------------------

  function DigitChar(d: int): (c: char)
    requires 0 <= d < 10
    ensures IsDigit(c)
  {
    (48 + d) as char
  }

  function DigitValue(c: char): (d: int)
    requires IsDigit(c)
    ensures 0 <= d < 10
  {
    c as int - 48
  }

  /** The value of a string of decimal digits, most significant first. */
  function DigitsValue(ds: string): nat
    requires AllDigits(ds)
  {
    if |ds| == 0 then 0 else DigitsValue(ds[..|ds| - 1]) * 10 + DigitValue(ds[|ds| - 1])
  }

  /** The decimal numeral of `n` as JavaScript writes it: digits only, no leading
      zero except for 0 itself, and reading it back gives `n`. */
  function NatToString(n: nat): (r: string)
    ensures |r| >= 1 && AllDigits(r)
    ensures r[0] != '0' || n == 0
    ensures |r| == 1 || r[0] != '0'
    ensures DigitsValue(r) == n
  {
    if n < 10 then [DigitChar(n)]
    else
      var r := NatToString(n / 10) + [DigitChar(n % 10)];
      assert r[..|r| - 1] == NatToString(n / 10);
      r
  }

  /** JavaScript's `String(i)` for an integer-valued number. */
  function IntToString(i: int): (r: string)
    ensures |r| >= 1
    ensures i < 0 ==> r[0] == '-' && AllDigits(r[1..]) && DigitsValue(r[1..]) == -i
    ensures i >= 0 ==> AllDigits(r) && DigitsValue(r) == i
    ensures i > 0 ==> r[0] != '0'
    ensures i == 0 ==> r == "0"
    ensures i < 0 ==> |r| >= 2 && r[1] != '0'
  {
    if i < 0 then
      var r := "-" + NatToString(-i);
      assert r[1..] == NatToString(-i);
      r
    else NatToString(i)
  }

  /** Length of the longest run of digits at the front of `s`. */
  function DigitPrefix(s: string): (k: nat)
    ensures k <= |s|
    ensures AllDigits(s[..k])
    ensures k < |s| ==> !IsDigit(s[k])
  {
    if |s| > 0 && IsDigit(s[0]) then
      var k := 1 + DigitPrefix(s[1..]);
      assert s[..k] == [s[0]] + s[1..][..k - 1];
      k
    else
      0
  }

  /** A run of digits followed by a non-digit is exactly the digit prefix. */
  lemma {:induction false} DigitPrefixOf(ds: string, rest: string)
    requires AllDigits(ds)
    requires |rest| == 0 || !IsDigit(rest[0])
    ensures DigitPrefix(ds + rest) == |ds|
  {
    if |ds| > 0 {
      assert (ds + rest)[1..] == ds[1..] + rest;
      DigitPrefixOf(ds[1..], rest);
    }
  }

  /** White space followed by a non-space is exactly the leading white space. */
  lemma {:induction false} LeadingSpacesOf(ws: string, rest: string)
    requires AllSpace(ws)
    requires |rest| == 0 || !IsSpace(rest[0])
    ensures LeadingSpaces(ws + rest) == |ws|
  {
    if |ws| > 0 {
      assert (ws + rest)[1..] == ws[1..] + rest;
      LeadingSpacesOf(ws[1..], rest);
    }
  }

  /** `parseInt(s, 10)`: skip leading white space, read an optional sign, then the
      longest run of decimal digits. `None` stands for `NaN` (no digit found). */
  function ParseInt(s: string): (r: Option<int>)
    ensures var t := s[LeadingSpaces(s)..];
      r.Some? <==> |t| > 0 && (IsDigit(t[0]) || ((t[0] == '-' || t[0] == '+') && |t| > 1 && IsDigit(t[1])))
    ensures var t := s[LeadingSpaces(s)..];
      r.Some? && |t| > 0 && t[0] != '-' ==> r.value >= 0
  {
    var t := s[LeadingSpaces(s)..];
    if |t| > 0 && t[0] == '-' then Negate(ParseDigits(t[1..]))
    else if |t| > 0 && t[0] == '+' then ParseDigits(t[1..])
    else ParseDigits(t)
  }

  /** The value of the longest run of digits at the front, if there is one. */
  function ParseDigits(body: string): (r: Option<int>)
    ensures r.Some? <==> |body| > 0 && IsDigit(body[0])
  {
    var k := DigitPrefix(body);
    if k == 0 then None else Some(DigitsValue(body[..k]))
  }

  function Negate(v: Option<int>): Option<int>
  {
    if v.Some? then Some(-v.value) else None
  }

  /** A decimal parse whose failure reads as 0: any non-zero result is the
      parsed integer, and 0 means the parse failed or read 0. */
  function ParseIntOrZero(s: string): (r: int)
    ensures r != 0 ==> ParseInt(s) == Some(r)
    ensures r == 0 <==> ParseInt(s) == None || ParseInt(s) == Some(0)
  {
    match ParseInt(s)
    case None => 0
    case Some(v) => v
  }

  /** `parseInt` skips leading white space. */
  lemma {:induction false} ParseIntSkipsSpace(ws: string, t: string)
    requires AllSpace(ws)
    requires |t| == 0 || !IsSpace(t[0])
    ensures ParseInt(ws + t) == ParseInt(t)
  {
    LeadingSpacesOf(ws, t);
    assert (ws + t)[|ws|..] == t;
    LeadingSpacesOf("", t);
    assert "" + t == t && t[0..] == t;
  }

  /** A string that does not start with white space has no leading spaces. */
  lemma {:induction false} NoLeadingSpaces(t: string)
    requires |t| == 0 || !IsSpace(t[0])
    ensures LeadingSpaces(t) == 0
  {
    LeadingSpacesOf("", t);
    assert "" + t == t;
  }

  /** Digits followed by a non-digit read back as their value. */
  lemma {:induction false} ParseDigitsOf(ds: string, rest: string)
    requires AllDigits(ds) && |ds| > 0
    requires |rest| == 0 || !IsDigit(rest[0])
    ensures ParseDigits(ds + rest) == Some(DigitsValue(ds) as int)
  {
    DigitPrefixOf(ds, rest);
    assert (ds + rest)[..|ds|] == ds;
  }

  /** A written integer followed by a non-digit reads back as itself. */
  lemma {:induction false} ParseIntOfBareNumeral(i: int, rest: string)
    requires |rest| == 0 || !IsDigit(rest[0])
    ensures ParseInt(IntToString(i) + rest) == Some(i)
  {
    var num := IntToString(i);
    var t := num + rest;
    NoLeadingSpaces(t);
    assert t[0..] == t;
    if i < 0 {
      assert t[1..] == num[1..] + rest;
      ParseDigitsOf(num[1..], rest);
    } else {
      ParseDigitsOf(num, rest);
    }
  }

  /** Reading back a written integer: white space before it is skipped and
      anything after it that does not continue the numeral is ignored. */
  lemma {:induction false} ParseIntOfNumeral(ws: string, i: int, rest: string)
    requires AllSpace(ws)
    requires |rest| == 0 || !IsDigit(rest[0])
    ensures ParseInt(ws + IntToString(i) + rest) == Some(i)
    ensures ParseIntOrZero(ws + IntToString(i) + rest) == i
  {
    var t := IntToString(i) + rest;
    assert ws + IntToString(i) + rest == ws + t;
    ParseIntSkipsSpace(ws, t);
    ParseIntOfBareNumeral(i, rest);
  }

  /** Input that does not start (after white space and an optional sign) with a
      digit is `NaN` to `parseInt` and therefore reads as 0. */
  lemma {:induction false} ParseIntOrZeroOfNonNumeral(ws: string, sign: string, rest: string)
    requires AllSpace(ws)
    requires sign == "" || sign == "-" || sign == "+"
    requires |rest| == 0 || (!IsDigit(rest[0]) && (sign != "" || (!IsSpace(rest[0]) && rest[0] != '-' && rest[0] != '+')))
    ensures ParseInt(ws + sign + rest) == None
    ensures ParseIntOrZero(ws + sign + rest) == 0
  {
    var s := ws + sign + rest;
    assert s == ws + (sign + rest);
    LeadingSpacesOf(ws, sign + rest);
    assert s[|ws|..] == sign + rest;
    if sign != "" {
      assert s[|ws|..][1..] == rest;
    }
  }
}
