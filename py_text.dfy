/** The few Python 2 string operations the relay controller relies on, with
    Python 2's own edge cases: `str.split` with a one-character separator,
    the substring test `t in s`, `int()` applied to a `str`, and the `%d`
    conversion used to build request paths. */
module PyText {
  import opened Wrappers

  // ---------------------------------------------------------------------------
  // str.split(sep) and its inverse, sep.join(pieces)
  // ---------------------------------------------------------------------------

  /** Number of occurrences of `c` in `s`. */
  function Count(s: string, c: char): nat {
    if s == [] then 0 else (if s[0] == c then 1 else 0) + Count(s[1..], c)
  }

  /** `sep.join(pieces)`: the pieces with one separator between neighbours. */
  function Join(pieces: seq<string>, sep: char): string
    requires |pieces| > 0
  {
    if |pieces| == 1 then pieces[0] else pieces[0] + [sep] + Join(pieces[1..], sep)
  }

  /** Python `s.split(sep)` with an explicit one-character separator: there is
      always one piece more than there are separators, empty pieces are kept,
      no piece holds the separator, and joining the pieces gives `s` back. */
  function Split(s: string, sep: char): (pieces: seq<string>)
    ensures |pieces| == Count(s, sep) + 1
    ensures forall k :: 0 <= k < |pieces| ==> sep !in pieces[k]
    ensures Join(pieces, sep) == s
  {
    if s == [] then [[]]
    else
      var rest := Split(s[1..], sep);
      if s[0] == sep then
        assert s == [sep] + s[1..];
        [[]] + rest
      else
        var pieces := [[s[0]] + rest[0]] + rest[1..];
        assert pieces[1..] == rest[1..];
        assert s == [s[0]] + s[1..];
        pieces
  }

  /** A string without the separator splits into itself alone. */
  lemma {:induction false} SplitNoSeparator(s: string, sep: char)
    requires sep !in s
    ensures Split(s, sep) == [s]
  {
    if s != [] {
      SplitNoSeparator(s[1..], sep);
    }
  }

  /** Splitting stops at the first separator. */
  lemma {:induction false} SplitAtFirst(p: string, sep: char, t: string)
    requires sep !in p
    ensures Split(p + [sep] + t, sep) == [p] + Split(t, sep)
  {
    if p == [] {
      assert p + [sep] + t == [sep] + t;
      assert ([sep] + t)[1..] == t;
    } else {
      assert (p + [sep] + t)[1..] == p[1..] + [sep] + t;
      SplitAtFirst(p[1..], sep, t);
      assert [p[0]] + p[1..] == p;
    }
  }

  /** Split is the only inverse of Join: pieces free of the separator are
      recovered exactly from their join. */
  lemma {:induction false} SplitJoin(pieces: seq<string>, sep: char)
    requires |pieces| > 0
    requires forall k :: 0 <= k < |pieces| ==> sep !in pieces[k]
    ensures Split(Join(pieces, sep), sep) == pieces
  {
    if |pieces| == 1 {
      SplitNoSeparator(pieces[0], sep);
    } else {
      SplitJoin(pieces[1..], sep);
      SplitAtFirst(pieces[0], sep, Join(pieces[1..], sep));
      assert [pieces[0]] + pieces[1..] == pieces;
    }
  }

  /** A character other than the separator occurs in a join only if it
      occurs in one of the pieces. */
  lemma {:induction false} JoinAvoids(pieces: seq<string>, sep: char, c: char)
    requires |pieces| > 0 && c != sep
    requires forall k :: 0 <= k < |pieces| ==> c !in pieces[k]
    ensures c !in Join(pieces, sep)
  {
    if |pieces| > 1 {
      JoinAvoids(pieces[1..], sep, c);
    }
  }

  // ---------------------------------------------------------------------------
  // The substring test `t in s`
  // ---------------------------------------------------------------------------

  /** `t` occurs in `s` starting at index `i`. */
  predicate OccursAt(s: string, t: string, i: int) {
    0 <= i && i + |t| <= |s| && s[i..i + |t|] == t
  }

  /** Python `t in s` for strings: a substring test anywhere in `s`, not a
      prefix test; the empty string occurs in every string. */
  function Contains(s: string, t: string): (r: bool)
    ensures r <==> exists i :: OccursAt(s, t, i)
    decreases |s|
  {
    if |t| > |s| then
      assert forall i :: !OccursAt(s, t, i);
      false
    else if s[..|t|] == t then
      assert OccursAt(s, t, 0);
      true
    else
      var r := Contains(s[1..], t);
      assert forall i :: OccursAt(s[1..], t, i) <==> OccursAt(s, t, i + 1);
      assert forall i :: OccursAt(s, t, i) ==> i == 0 || OccursAt(s[1..], t, i - 1);
      r
  }

  /** A string contains each of its prefixes. */
  lemma ContainsPrefix(t: string, u: string)
    ensures Contains(t + u, t)
  {
  }

  // ---------------------------------------------------------------------------
  // int(s) for a Python 2 str, base 10
  // ---------------------------------------------------------------------------

  /** C `isspace` in the "C" locale: blank, tab, line feed, vertical tab,
      form feed and carriage return. */
  predicate IsSpace(c: char) {
    c == ' ' || '\t' <= c <= '\r'
  }

  predicate IsDigit(c: char) {
    '0' <= c <= '9'
  }

  predicate AllSpace(s: string) {
    forall k :: 0 <= k < |s| ==> IsSpace(s[k])
  }

  predicate AllDigits(s: string) {
    forall k :: 0 <= k < |s| ==> IsDigit(s[k])
  }

  /** `s` without its leading white space. */
  function TrimStart(s: string): (r: string)
    ensures |r| <= |s|
    ensures r == [] || !IsSpace(r[0])
  {
    if s != [] && IsSpace(s[0]) then TrimStart(s[1..]) else s
  }

  /** What TrimStart keeps is a suffix of its argument. */
  lemma {:induction false} TrimStartSuffix(s: string)
    ensures TrimStart(s) == s[|s| - |TrimStart(s)|..]
  {
    if s != [] && IsSpace(s[0]) {
      TrimStartSuffix(s[1..]);
    }
  }

  /** Length of the longest prefix of `s` made of decimal digits. */
  function DigitRun(s: string): (n: nat)
    ensures n <= |s| && AllDigits(s[..n])
    ensures n < |s| ==> !IsDigit(s[n])
  {
    if s != [] && IsDigit(s[0]) then
      var n := 1 + DigitRun(s[1..]);
      assert s[..n] == [s[0]] + s[1..][..n - 1];
      n
    else 0
  }

  /** Value of a run of decimal digits, most significant first; the empty
      run is worth 0. */
  function DigitsValue(ds: string): nat
    requires AllDigits(ds)
  {
    if ds == [] then 0
    else 10 * DigitsValue(ds[..|ds| - 1]) + (ds[|ds| - 1] as int - '0' as int)
  }

  /** The unsigned part of `int()`: at least one decimal digit, then only
      white space to the end. */
  function ParseUnsigned(body: string): Option<int> {
    var n := DigitRun(body);
    if n == 0 || !AllSpace(body[n..]) then None else Some(DigitsValue(body[..n]))
  }

  /** Python 2 `int(s)` for a `str` in base 10. Leading white space is
      skipped, then an optional sign, then white space again (Python 2 hands
      the text after the sign to a conversion that skips white space once
      more, so `int("- 5") == -5`), then at least one decimal digit, then
      only white space to the end. Anything else is a ValueError: `None`. */
  function ParseInt(s: string): Option<int> {
    ParseSigned(TrimStart(s))
  }

  /** `int()` once the leading white space is gone. */
  function ParseSigned(t: string): Option<int> {
    if t != [] && t[0] == '-' then
      var m := ParseUnsigned(TrimStart(t[1..]));
      if m.None? then None else Some(-m.value)
    else if t != [] && t[0] == '+' then ParseUnsigned(TrimStart(t[1..]))
    else ParseUnsigned(t)
  }

  // ---------------------------------------------------------------------------
  // "%d" % n
  // ---------------------------------------------------------------------------

  function DigitChar(d: nat): (c: char)
    requires d < 10
    ensures IsDigit(c)
  {
    ('0' as int + d) as char
  }

  /** Decimal digits of `n`, without leading zeros. */
  function NatDigits(n: nat): (ds: string)
    ensures ds != [] && AllDigits(ds)
  {
    if n < 10 then [DigitChar(n)] else NatDigits(n / 10) + [DigitChar(n % 10)]
  }

  /** Python `"%d" % n`: a minus sign for negative numbers, then the digits.
      The text holds only digits after that sign, so it never contains a
      separator such as ',', '/' or a line feed. */
  function FormatInt(n: int): (f: string)
    ensures f != [] && (f[0] == '-' <==> n < 0)
    ensures forall k :: 0 <= k < |f| ==> IsDigit(f[k]) || (k == 0 && f[k] == '-')
  {
    if n < 0 then "-" + NatDigits(-n) else NatDigits(n)
  }

  /** The digits of `n` read back give `n`. */
  lemma {:induction false} NatDigitsValue(n: nat)
    ensures DigitsValue(NatDigits(n)) == n
  {
    if n >= 10 {
      NatDigitsValue(n / 10);
      var ds := NatDigits(n);
      assert ds[..|ds| - 1] == NatDigits(n / 10);
    }
  }

  /** Leading white space is skipped by TrimStart up to the first character
      that is not white space. */
  lemma {:induction false} TrimStartSpace(pre: string, s: string)
    requires AllSpace(pre)
    requires s == [] || !IsSpace(s[0])
    ensures TrimStart(pre + s) == s
  {
    if pre != [] {
      assert (pre + s)[1..] == pre[1..] + s;
      TrimStartSpace(pre[1..], s);
    }
  }

  /** What TrimStart drops is white space. */
  lemma {:induction false} TrimStartDropsSpace(s: string)
    ensures AllSpace(s[..|s| - |TrimStart(s)|])
  {
    if s != [] && IsSpace(s[0]) {
      TrimStartDropsSpace(s[1..]);
      assert s[..|s| - |TrimStart(s)|] == [s[0]] + s[1..][..|s[1..]| - |TrimStart(s[1..])|];
    }
  }

  /** A digit string followed by white space is read as its value. */
  lemma ParseUnsignedDigits(ds: string, post: string)
    requires AllSpace(post) && ds != [] && AllDigits(ds)
    ensures ParseUnsigned(ds + post) == Some(DigitsValue(ds))
  {
  }

  /** `int()` reads an unsigned digit string surrounded by white space. */
  lemma ParseDigits(pre: string, ds: string, post: string)
    requires AllSpace(pre) && AllSpace(post) && ds != [] && AllDigits(ds)
    ensures ParseInt(pre + ds + post) == Some(DigitsValue(ds))
  {
    assert pre + ds + post == pre + (ds + post);
    assert IsDigit((ds + post)[0]);
    TrimStartSpace(pre, ds + post);
    ParseUnsignedDigits(ds, post);
  }

  /** `int()` reads a minus sign directly followed by a digit string,
      surrounded by white space, as a negative number. */
  lemma ParseNegativeDigits(pre: string, ds: string, post: string)
    requires AllSpace(pre) && AllSpace(post) && ds != [] && AllDigits(ds)
    ensures ParseInt(pre + ("-" + ds) + post) == Some(-(DigitsValue(ds) as int))
  {
    var t := ['-'] + (ds + post);
    assert pre + ("-" + ds) + post == pre + t;
    TrimStartSpace(pre, t);
    NegativeDigits(ds, post);
  }

  /** A minus sign directly followed by digits and white space. */
  lemma NegativeDigits(ds: string, post: string)
    requires AllSpace(post) && ds != [] && AllDigits(ds)
    ensures ParseSigned(['-'] + (ds + post)) == Some(-(DigitsValue(ds) as int))
  {
    assert [] + (ds + post) == ds + post;
    SignedDigits('-', [], ds, post);
  }

  /** `int()` inverts `%d`, also when the number is surrounded by white space
      such as the carriage return a device line may end with. */
  lemma ParseFormatInt(n: int, pre: string, post: string)
    requires AllSpace(pre) && AllSpace(post)
    ensures ParseInt(pre + FormatInt(n) + post) == Some(n)
  {
    if n < 0 {
      NatDigitsValue(-n);
      ParseNegativeDigits(pre, NatDigits(-n), post);
    } else {
      NatDigitsValue(n);
      ParseDigits(pre, NatDigits(n), post);
    }
  }

  /** The digit run of a digit string followed by white space is exactly
      that digit string. */
  lemma {:induction false} DigitRunOfDigits(ds: string, post: string)
    requires AllDigits(ds) && AllSpace(post)
    ensures DigitRun(ds + post) == |ds|
  {
    if ds != [] {
      assert (ds + post)[1..] == ds[1..] + post;
      DigitRunOfDigits(ds[1..], post);
    }
  }

  /** `int()` fails on text without any decimal digit, the empty string
      included. */
  lemma ParseIntNeedsDigit(s: string)
    requires forall k :: 0 <= k < |s| ==> !IsDigit(s[k])
    ensures ParseInt(s) == None
  {
    var t := TrimStart(s);
    TrimStartSuffix(s);
    if t != [] && (t[0] == '-' || t[0] == '+') {
      TrimStartSuffix(t[1..]);
    }
  }

  // ---------------------------------------------------------------------------
  // What int() accepts, exactly
  // ---------------------------------------------------------------------------

  /** `s` is white space `pre`, an optional sign, white space `mid` (only
      after a sign), a non-empty run of digits `ds` and white space `post`,
      and `v` is the number it denotes. */
  predicate IntText(s: string, pre: string, sign: string, mid: string, ds: string, post: string, v: int) {
    s == pre + sign + mid + ds + post &&
    AllSpace(pre) && AllSpace(mid) && AllSpace(post) &&
    (sign == "" || sign == "+" || sign == "-") && (sign == "" ==> mid == "") &&
    ds != [] && AllDigits(ds) &&
    v == (if sign == "-" then -(DigitsValue(ds) as int) else DigitsValue(ds) as int)
  }

  /** A sign, white space, digits and white space, once the leading white
      space is gone. */
  lemma SignedDigits(c: char, mid: string, ds: string, post: string)
    requires (c == '-' || c == '+') && AllSpace(mid) && AllSpace(post) && ds != [] && AllDigits(ds)
    ensures ParseSigned([c] + (mid + (ds + post))) ==
      Some(if c == '-' then -(DigitsValue(ds) as int) else DigitsValue(ds) as int)
  {
    var t := [c] + (mid + (ds + post));
    assert t[1..] == mid + (ds + post);
    assert IsDigit((ds + post)[0]);
    TrimStartSpace(mid, ds + post);
    ParseUnsignedDigits(ds, post);
  }

  /** `int()` reads every text of that shape as the number it denotes. */
  lemma ParseIntAccepts(s: string, pre: string, sign: string, mid: string, ds: string, post: string, v: int)
    requires IntText(s, pre, sign, mid, ds, post, v)
    ensures ParseInt(s) == Some(v)
  {
    if sign == "" {
      assert s == pre + ds + post;
      ParseDigits(pre, ds, post);
    } else {
      var t := [sign[0]] + (mid + (ds + post));
      assert s == pre + t;
      TrimStartSpace(pre, t);
      SignedDigits(sign[0], mid, ds, post);
    }
  }

  /** The digits and trailing white space ParseUnsigned accepts. */
  lemma UnsignedParts(u: string)
    requires ParseUnsigned(u).Some?
    ensures var n := DigitRun(u);
      n > 0 && AllDigits(u[..n]) && AllSpace(u[n..]) && ParseUnsigned(u).value == DigitsValue(u[..n])
  {
  }

  /** `s` is split by TrimStart into white space and the rest. */
  lemma TrimStartParts(s: string)
    ensures var t := TrimStart(s);
      s == s[..|s| - |t|] + t && AllSpace(s[..|s| - |t|])
  {
    TrimStartSuffix(s);
    TrimStartDropsSpace(s);
  }

  /** Whatever `int()` accepts has that shape. */
  lemma ParseIntShape(s: string)
    requires ParseInt(s).Some?
    ensures exists pre, sign, mid, ds, post :: IntText(s, pre, sign, mid, ds, post, ParseInt(s).value)
  {
    var t := TrimStart(s);
    TrimStartParts(s);
    var pre := s[..|s| - |t|];
    if t != [] && (t[0] == '-' || t[0] == '+') {
      SignedShape(s, pre, t);
    } else {
      UnsignedShape(s, pre, t);
    }
  }

  /** The shape of an accepted text whose number carries a sign. */
  lemma SignedShape(s: string, pre: string, t: string)
    requires s == pre + t && AllSpace(pre) && t != [] && (t[0] == '-' || t[0] == '+')
    requires ParseSigned(t).Some?
    ensures exists pre, sign, mid, ds, post :: IntText(s, pre, sign, mid, ds, post, ParseSigned(t).value)
  {
    var mid, ds, post := SignedPieces(t);
    var sign := [t[0]];
    assert s == pre + sign + mid + ds + post by {
      assert t == sign + (mid + (ds + post));
    }
    assert IntText(s, pre, sign, mid, ds, post, ParseSigned(t).value);
  }

  /** The pieces after the sign of an accepted signed number. */
  lemma SignedPieces(t: string) returns (mid: string, ds: string, post: string)
    requires t != [] && (t[0] == '-' || t[0] == '+') && ParseSigned(t).Some?
    ensures t == [t[0]] + (mid + (ds + post))
    ensures AllSpace(mid) && AllSpace(post) && ds != [] && AllDigits(ds)
    ensures ParseSigned(t).value == if t[0] == '-' then -(DigitsValue(ds) as int) else DigitsValue(ds) as int
  {
    var rest := t[1..];
    var u := TrimStart(rest);
    TrimStartParts(rest);
    UnsignedParts(u);
    mid := rest[..|rest| - |u|];
    var n := DigitRun(u);
    ds, post := u[..n], u[n..];
    assert u == ds + post;
  }

  /** The shape of an accepted text whose number has no sign. */
  lemma UnsignedShape(s: string, pre: string, t: string)
    requires s == pre + t && AllSpace(pre) && !(t != [] && (t[0] == '-' || t[0] == '+'))
    requires ParseSigned(t).Some?
    ensures exists pre, sign, mid, ds, post :: IntText(s, pre, sign, mid, ds, post, ParseSigned(t).value)
  {
    UnsignedParts(t);
    var n := DigitRun(t);
    var ds, post := t[..n], t[n..];
    assert t == ds + post;
    assert s == pre + "" + "" + ds + post;
    assert IntText(s, pre, "", "", ds, post, ParseSigned(t).value);
  }

  /** `int(s)` is `v` exactly when `s` is white space, an optional sign,
      white space after a sign, at least one decimal digit and white space,
      denoting `v`: leading zeros and a `+` are accepted, and trailing text
      such as "5x", "1.0" or "0x1A", a doubled sign or a lone sign is not. */
  lemma ParseIntExactly(s: string, v: int)
    ensures ParseInt(s) == Some(v) <==> exists pre, sign, mid, ds, post :: IntText(s, pre, sign, mid, ds, post, v)
  {
    if ParseInt(s) == Some(v) {
      ParseIntShape(s);
    }
    if exists pre, sign, mid, ds, post :: IntText(s, pre, sign, mid, ds, post, v) {
      var pre, sign, mid, ds, post :| IntText(s, pre, sign, mid, ds, post, v);
      ParseIntAccepts(s, pre, sign, mid, ds, post, v);
    }
  }

  /** Python 2 accepts white space between the sign and the digits. */
  lemma ParseIntSpaceAfterSign()
    ensures ParseInt("- 5") == Some(-5)
  {
    ParseIntAccepts("- 5", "", "-", " ", "5", "", -5);
  }

  /** Python 2 accepts a plus sign. */
  lemma ParseIntPlusSign()
    ensures ParseInt("+7") == Some(7)
  {
    ParseIntAccepts("+7", "", "+", "", "7", "", 7);
  }

  /** Python 2 accepts leading zeros. */
  lemma ParseIntLeadingZeros()
    ensures ParseInt("007") == Some(7)
  {
    assert "007"[..2] == "00" && "00"[..1] == "0" && "0"[..0] == "";
    ParseIntAccepts("007", "", "", "", "007", "", 7);
  }

  /** Python 2 accepts white space around the number, such as a trailing
      carriage return. */
  lemma ParseIntSurroundingSpace()
    ensures ParseInt(" 12\r") == Some(12)
  {
    ParseIntAccepts(" 12\r", " ", "", "", "12", "\r", 12);
  }

  /** Python 2's refusals: trailing text, a doubled sign, a lone sign. */
  lemma ParseIntRefuses()
    ensures ParseInt("5x").None? && ParseInt("1.0").None?
    ensures ParseInt("--5").None? && ParseInt("-").None?
  {
  }
}
