/** The JavaScript string and number primitives the screens rely on:
    whitespace, `trim`, `split`, `parseInt`, `Number`, integer `toString`
    and the truncating remainder `%`. Strings are sequences of characters;
    no encoding is modelled. */
module JsText {
  import opened Wrappers

  /** A character matched by the regular-expression class `\s` and stripped
      by `trim` (the ECMAScript WhiteSpace and LineTerminator characters). */
  predicate IsSpace(c: char) {
    c == '\t' || c == '\n' || c == '\U{000B}' || c == '\U{000C}' || c == '\r' || c == ' ' ||
    c == '\U{00A0}' || c == '\U{1680}' || c == '\U{2000}' || c == '\U{2001}' || c == '\U{2002}' ||
    c == '\U{2003}' || c == '\U{2004}' || c == '\U{2005}' || c == '\U{2006}' || c == '\U{2007}' ||
    c == '\U{2008}' || c == '\U{2009}' || c == '\U{200A}' || c == '\U{2028}' || c == '\U{2029}' ||
    c == '\U{202F}' || c == '\U{205F}' || c == '\U{3000}' || c == '\U{FEFF}'
  }

  predicate IsDigit(c: char) {
    '0' <= c <= '9'
  }

  predicate NoSpace(s: string) {
    forall i :: 0 <= i < |s| ==> !IsSpace(s[i])
  }

  predicate AllDigits(s: string) {
    forall i :: 0 <= i < |s| ==> IsDigit(s[i])
  }

  // ------------------------------------------------------------------ trim

  /** `s.trimStart()`: the suffix left after dropping leading whitespace. */
  function TrimStart(s: string): (r: string)
    ensures |r| <= |s|
    ensures r == [] || !IsSpace(r[0])
  {
    if s != [] && IsSpace(s[0]) then TrimStart(s[1..]) else s
  }

  /** What `trimStart` drops is a run of whitespace, and what it keeps is
      the rest of `s`. */
  lemma {:induction false} TrimStartDrops(s: string)
    ensures var r := TrimStart(s);
            r == s[|s| - |r|..] && forall i :: 0 <= i < |s| - |r| ==> IsSpace(s[i])
  {
    if s != [] && IsSpace(s[0]) {
      TrimStartDrops(s[1..]);
      var r := TrimStart(s);
      assert r == TrimStart(s[1..]);
      assert s[1..][|s| - 1 - |r|..] == s[|s| - |r|..];
      forall i | 0 < i < |s| - |r| ensures IsSpace(s[i]) {
        assert s[i] == s[1..][i - 1];
      }
    }
  }

  /** `s.trimEnd()`: the prefix left after dropping trailing whitespace. */
  function TrimEnd(s: string): (r: string)
    ensures |r| <= |s|
    ensures r == [] || !IsSpace(r[|r| - 1])
  {
    if s != [] && IsSpace(s[|s| - 1]) then TrimEnd(s[..|s| - 1]) else s
  }

  /** What `trimEnd` drops is a run of whitespace, and what it keeps is the
      start of `s`. */
  lemma {:induction false} TrimEndDrops(s: string)
    ensures var r := TrimEnd(s);
            r == s[..|r|] && forall i :: |r| <= i < |s| ==> IsSpace(s[i])
  {
    if s != [] && IsSpace(s[|s| - 1]) {
      var p := s[..|s| - 1];
      TrimEndDrops(p);
      var r := TrimEnd(s);
      assert r == TrimEnd(p);
      assert p[..|r|] == s[..|r|];
      forall i | |r| <= i < |s| - 1 ensures IsSpace(s[i]) {
        assert s[i] == p[i];
      }
    }
  }

  /** `s.trim()`: neither starts nor ends with whitespace. */
  function Trim(s: string): (r: string)
    ensures |r| <= |s|
    ensures r == [] || (!IsSpace(r[0]) && !IsSpace(r[|r| - 1]))
  {
    var t := TrimStart(s);
    TrimEndDrops(t);
    TrimEnd(t)
  }

  /** Trimming leaves nothing exactly when `s` is all whitespace. */
  lemma TrimBlank(s: string)
    ensures Trim(s) == [] <==> forall i :: 0 <= i < |s| ==> IsSpace(s[i])
  {
    var t := TrimStart(s);
    TrimStartDrops(s);
    TrimEndDrops(t);
    if t != [] {
      assert t[0] == s[|s| - |t|];
    }
  }

  /** Trimming removes whitespace only: the trimmed string sits inside `s`
      and everything around it is whitespace. */
  lemma TrimIsInfix(s: string)
    ensures var k := |s| - |TrimStart(s)|;
            k + |Trim(s)| <= |s| && Trim(s) == s[k..k + |Trim(s)|] &&
            (forall i :: 0 <= i < k ==> IsSpace(s[i])) &&
            (forall i :: k + |Trim(s)| <= i < |s| ==> IsSpace(s[i]))
  {
    TrimStartDrops(s);
    TrimInside(s);
    TrimTrailing(s);
  }

  lemma TrimInside(s: string)
    ensures var k := |s| - |TrimStart(s)|;
            k + |Trim(s)| <= |s| && Trim(s) == s[k..k + |Trim(s)|]
  {
    var t := TrimStart(s);
    var k := |s| - |t|;
    var r := TrimEnd(t);
    TrimStartDrops(s);
    TrimEndDrops(t);
    assert t == s[k..];
    assert r == t[..|r|];
    SliceOfSuffix(s, k, |r|);
  }

  lemma TrimTrailing(s: string)
    ensures var k := |s| - |TrimStart(s)|;
            forall i :: k + |Trim(s)| <= i < |s| ==> IsSpace(s[i])
  {
    var t := TrimStart(s);
    var k := |s| - |t|;
    var r := TrimEnd(t);
    TrimStartDrops(s);
    TrimEndDrops(t);
    forall i | k + |r| <= i < |s| ensures IsSpace(s[i]) {
      assert s[i] == t[i - k];
    }
  }

  lemma SliceOfSuffix(s: string, k: nat, n: nat)
    requires k + n <= |s|
    ensures s[k..][..n] == s[k..k + n]
  {
  }

  /** A string that neither starts nor ends with whitespace is its own
      trim, so trimming twice is trimming once. */
  lemma TrimTrimmed(s: string)
    requires s == [] || (!IsSpace(s[0]) && !IsSpace(s[|s| - 1]))
    ensures Trim(s) == s
  {
  }

  /** Trimming never brings in a character that was not there. */
  lemma TrimKeepsOut(s: string, c: char)
    requires c !in s
    ensures c !in Trim(s)
  {
    TrimInside(s);
  }

  /** A string without whitespace is its own trim. */
  lemma TrimNoSpace(s: string)
    requires NoSpace(s)
    ensures Trim(s) == s
  {
  }

  // ----------------------------------------------------------------- split

  /** `s.split(sep)` for a one-character separator: the pieces between
      separators, empty pieces included, so `"".split(sep)` is `[""]`. */
  function Split(s: string, sep: char): (parts: seq<string>)
    ensures |parts| >= 1
    ensures forall k :: 0 <= k < |parts| ==> sep !in parts[k]
  {
    if s == [] then [[]]
    else
      var rest := Split(s[1..], sep);
      if s[0] == sep then [[]] + rest
      else [[s[0]] + rest[0]] + rest[1..]
  }

  /** `parts.join(sep)`. */
  function Join(parts: seq<string>, sep: char): string {
    if parts == [] then []
    else if |parts| == 1 then parts[0]
    else parts[0] + [sep] + Join(parts[1..], sep)
  }

  /** Joining the pieces of a split restores the string. */
  lemma {:induction false} JoinSplit(s: string, sep: char)
    ensures Join(Split(s, sep), sep) == s
  {
    if s != [] {
      JoinSplit(s[1..], sep);
      var rest := Split(s[1..], sep);
      if s[0] == sep {
        assert ([[]] + rest)[1..] == rest;
      } else {
        var parts := [[s[0]] + rest[0]] + rest[1..];
        assert parts[1..] == rest[1..];
        if |rest| > 1 {
          assert Join(rest, sep) == rest[0] + [sep] + Join(rest[1..], sep);
        }
      }
    }
  }

  /** Splitting a string whose first piece is `a`. */
  lemma {:induction false} SplitPrefix(a: string, tail: string, sep: char)
    requires sep !in a
    ensures Split(a + tail, sep) == [a + Split(tail, sep)[0]] + Split(tail, sep)[1..]
  {
    var t := Split(tail, sep);
    if a == [] {
      assert a + tail == tail;
      assert a + t[0] == t[0];
      assert [t[0]] + t[1..] == t;
    } else {
      SplitPrefix(a[1..], tail, sep);
      var s := a + tail;
      assert s[1..] == a[1..] + tail;
      assert s[0] == a[0] && a[0] != sep;
      var r := Split(s[1..], sep);
      assert r == [a[1..] + t[0]] + t[1..];
      assert Split(s, sep) == [[a[0]] + r[0]] + r[1..];
      assert [a[0]] + (a[1..] + t[0]) == a + t[0];
    }
  }

  /** Splitting a join of separator-free pieces gives the pieces back. */
  lemma {:induction false} SplitJoin(parts: seq<string>, sep: char)
    requires |parts| >= 1
    requires forall k :: 0 <= k < |parts| ==> sep !in parts[k]
    ensures Split(Join(parts, sep), sep) == parts
  {
    if |parts| == 1 {
      SplitPrefix(parts[0], [], sep);
      assert parts[0] + [] == parts[0];
    } else {
      var tail := [sep] + Join(parts[1..], sep);
      SplitJoin(parts[1..], sep);
      SplitPrefix(parts[0], tail, sep);
      assert tail[0] == sep && tail[1..] == Join(parts[1..], sep);
      assert Split(tail, sep) == [[]] + parts[1..];
      assert Split(tail, sep)[0] == [] && Split(tail, sep)[1..] == parts[1..];
      assert parts[0] + [] == parts[0];
      assert parts[0] + tail == Join(parts, sep);
      assert parts == [parts[0]] + parts[1..];
    }
  }

  // ----------------------------------------------------------------- words

  /** The pieces of `s` cut at every whitespace character. Cutting at every
      whitespace character rather than at every maximal run of whitespace
      (as `split(/\s+/)` does) only adds empty pieces. */
  function Pieces(s: string): (ps: seq<string>)
    ensures |ps| >= 1
  {
    if s == [] then [[]]
    else
      var rest := Pieces(s[1..]);
      if IsSpace(s[0]) then [[]] + rest
      else [[s[0]] + rest[0]] + rest[1..]
  }

  /** `.filter(Boolean)` on strings: the non-empty ones, in order. */
  function NonEmpty(ps: seq<string>): (r: seq<string>)
    ensures |r| <= |ps|
  {
    if |ps| == 0 then []
    else Kept(ps[0]) + NonEmpty(ps[1..])
  }

  /** What `.filter(Boolean)` keeps of one string. */
  function Kept(p: string): seq<string> {
    if |p| == 0 then [] else [p]
  }

  /** When no member is empty, the filter keeps them all. */
  lemma {:induction false} NonEmptyKeepsAll(ps: seq<string>)
    requires forall i :: 0 <= i < |ps| ==> ps[i] != []
    ensures NonEmpty(ps) == ps
  {
    if |ps| > 0 {
      NonEmptyKeepsAll(ps[1..]);
      assert [ps[0]] + ps[1..] == ps;
    }
  }

  /** The filter keeps only non-empty members of its input. */
  lemma {:induction false} NonEmptyKeeps(ps: seq<string>)
    ensures forall i :: 0 <= i < |NonEmpty(ps)| ==> NonEmpty(ps)[i] != [] && NonEmpty(ps)[i] in ps
  {
    if ps != [] {
      NonEmptyKeeps(ps[1..]);
      var rest := NonEmpty(ps[1..]);
      var r := NonEmpty(ps);
      forall i | 0 <= i < |r| ensures r[i] != [] && r[i] in ps {
        if i < |Kept(ps[0])| {
          assert r[i] == ps[0];
        } else {
          assert r[i] == rest[i - |Kept(ps[0])|];
          assert r[i] in ps[1..];
        }
      }
    }
  }

  /** `s.split(/\s+/).filter(Boolean)`: the whitespace-separated words of
      `s`; each is non-empty and free of whitespace. */
  function Words(s: string): (ws: seq<string>)
    ensures forall i :: 0 <= i < |ws| ==> ws[i] != [] && NoSpace(ws[i])
  {
    PiecesNoSpace(s);
    NonEmptyKeeps(Pieces(s));
    NonEmpty(Pieces(s))
  }

  lemma {:induction false} PiecesNoSpace(s: string)
    ensures forall w :: w in Pieces(s) ==> NoSpace(w)
  {
    if s != [] {
      PiecesNoSpace(s[1..]);
      var rest := Pieces(s[1..]);
      if !IsSpace(s[0]) {
        assert rest[0] in rest;
        var w0 := [s[0]] + rest[0];
        assert NoSpace(w0) by {
          forall i | 0 <= i < |w0| ensures !IsSpace(w0[i]) {
            if i > 0 { assert w0[i] == rest[0][i - 1]; }
          }
        }
        forall w | w in rest[1..] ensures w in rest { }
      }
    }
  }

  lemma {:induction false} NonEmptyAppend(a: seq<string>, b: seq<string>)
    ensures NonEmpty(a + b) == NonEmpty(a) + NonEmpty(b)
  {
    if |a| == 0 {
      assert a + b == b;
    } else {
      var p := a[0];
      NonEmptyAppend(a[1..], b);
      assert a == [p] + a[1..];
      assert a + b == [p] + (a[1..] + b);
      NonEmptyCons(p, a[1..] + b);
      NonEmptyCons(p, a[1..]);
      AppendAssoc(Kept(p), NonEmpty(a[1..]), NonEmpty(b));
    }
  }

  lemma NonEmptyCons(p: string, rest: seq<string>)
    ensures NonEmpty([p] + rest) == Kept(p) + NonEmpty(rest)
  {
    var ps := [p] + rest;
    assert ps[0] == p && ps[1..] == rest;
  }

  lemma AppendAssoc(x: seq<string>, y: seq<string>, z: seq<string>)
    ensures x + (y + z) == (x + y) + z
  {
  }

  lemma {:induction false} PiecesAroundSpace(a: string, c: char, b: string)
    requires IsSpace(c)
    ensures Pieces(a + [c] + b) == Pieces(a) + Pieces(b)
  {
    var pb := Pieces(b);
    if |a| == 0 {
      assert a + [c] + b == [c] + b;
      PiecesCons(c, b);
    } else {
      var x := a[0];
      var tail := a[1..] + [c] + b;
      PiecesAroundSpace(a[1..], c, b);
      assert a == [x] + a[1..];
      assert a + [c] + b == [x] + tail;
      PiecesCons(x, tail);
      PiecesCons(x, a[1..]);
      var pa := Pieces(a[1..]);
      if IsSpace(x) {
        AppendAssoc([[]], pa, pb);
      } else {
        HeadOfAppend(pa, pb);
        AppendAssoc([[x] + pa[0]], pa[1..], pb);
      }
    }
  }

  lemma PiecesCons(c: char, rest: string)
    ensures Pieces([c] + rest) ==
            if IsSpace(c) then [[]] + Pieces(rest)
            else [[c] + Pieces(rest)[0]] + Pieces(rest)[1..]
  {
    var s := [c] + rest;
    assert s[0] == c && s[1..] == rest;
  }

  lemma HeadOfAppend(x: seq<string>, y: seq<string>)
    requires |x| >= 1
    ensures (x + y)[0] == x[0] && (x + y)[1..] == x[1..] + y
  {
  }

  /** A whitespace character separates the words before it from the words
      after it. */
  lemma WordsAroundSpace(a: string, c: char, b: string)
    requires IsSpace(c)
    ensures Words(a + [c] + b) == Words(a) + Words(b)
  {
    PiecesAroundSpace(a, c, b);
    NonEmptyAppend(Pieces(a), Pieces(b));
  }

  lemma {:induction false} PiecesOfWord(s: string)
    requires NoSpace(s)
    ensures Pieces(s) == [s]
  {
    if s != [] {
      PiecesOfWord(s[1..]);
      assert [s[0]] + s[1..] == s;
    }
  }

  /** A non-empty run of non-whitespace characters is one word. */
  lemma WordsOfWord(s: string)
    requires s != [] && NoSpace(s)
    ensures Words(s) == [s]
  {
    PiecesOfWord(s);
  }

  /** Blank text has no words. */
  lemma {:induction false} WordsOfBlank(s: string)
    requires forall i :: 0 <= i < |s| ==> IsSpace(s[i])
    ensures Words(s) == []
  {
    if s != [] {
      WordsOfBlank(s[1..]);
      assert Pieces(s) == [[]] + Pieces(s[1..]);
    }
  }

  // --------------------------------------------------------------- numbers

  function DigitValue(c: char): (d: nat)
    requires IsDigit(c)
    ensures d < 10
  {
    (c as int) - ('0' as int)
  }

  function DigitChar(d: nat): (c: char)
    requires d < 10
    ensures IsDigit(c) && DigitValue(c) == d
  {
    (('0' as int) + d) as char
  }

  /** The value of a run of decimal digits (most significant first). */
  function DigitsValue(ds: string): nat
    requires AllDigits(ds)
  {
    if ds == [] then 0 else DigitsValue(ds[..|ds| - 1]) * 10 + DigitValue(ds[|ds| - 1])
  }

  /** `n.toString()` for a natural number: decimal digits without a leading
      zero, whose value is `n`. */
  function NatToString(n: nat): (s: string)
    ensures s != [] && AllDigits(s)
  {
    if n < 10 then [DigitChar(n)] else NatToString(n / 10) + [DigitChar(n % 10)]
  }

  /** The digits `NatToString` writes have the value `n`, and only zero is
      written with a leading zero. */
  lemma {:induction false} NatToStringValue(n: nat)
    ensures DigitsValue(NatToString(n)) == n
    ensures NatToString(n)[0] == '0' ==> n == 0
    ensures |NatToString(n)| == 1 <==> n < 10
  {
    if n >= 10 {
      NatToStringValue(n / 10);
      var p := NatToString(n / 10);
      var s := NatToString(n);
      assert s == p + [DigitChar(n % 10)];
      assert s[..|s| - 1] == p;
    }
  }

  /** `i.toString()` for an integer. */
  function IntToString(i: int): (s: string)
    ensures s != []
  {
    if i < 0 then ['-'] + NatToString(-i) else NatToString(i)
  }

  /** The longest prefix of `s` made of decimal digits. */
  function LeadingDigits(s: string): (r: string)
    ensures |r| <= |s| && r == s[..|r|] && AllDigits(r)
    ensures |r| == |s| || !IsDigit(s[|r|])
  {
    if s != [] && IsDigit(s[0]) then [s[0]] + LeadingDigits(s[1..]) else []
  }

  /** `parseInt(s, 10)`: leading whitespace is skipped, then an optional
      sign and the longest run of decimal digits are read; `None` stands for
      `NaN` (no digit at all). */
  function ParseInt(s: string): Option<int> {
    ParseSigned(TrimStart(s))
  }

  /** What `parseInt` reads once leading whitespace is gone. */
  function ParseSigned(t: string): Option<int> {
    var signed := t != [] && (t[0] == '-' || t[0] == '+');
    var body := if signed then t[1..] else t;
    var ds := LeadingDigits(body);
    if ds == [] then None
    else if signed && t[0] == '-' then Some(0 - DigitsValue(ds) as int)
    else Some(DigitsValue(ds))
  }

  /** `Number(s)` for decimal integer text: surrounding whitespace is
      ignored, blank text is 0, an optional sign may precede the digits and
      anything else is `NaN` (`None`). */
  function JsNumber(s: string): Option<int> {
    TrimmedNumber(Trim(s))
  }

  /** What `Number` reads once surrounding whitespace is gone. */
  function TrimmedNumber(t: string): Option<int> {
    if t == [] then Some(0)
    else
      var signed := t[0] == '-' || t[0] == '+';
      var body := if signed then t[1..] else t;
      if body != [] && AllDigits(body) then
        Some(if t[0] == '-' then 0 - DigitsValue(body) as int else DigitsValue(body) as int)
      else None
  }

  /** The longest digit prefix of a run of digits is the whole run. */
  lemma LeadingDigitsOfDigits(d: string)
    requires AllDigits(d)
    ensures LeadingDigits(d) == d
  {
  }

  /** The digit prefix stops where the digits do. */
  lemma {:induction false} LeadingDigitsStop(d: string, tail: string)
    requires AllDigits(d)
    requires tail == [] || !IsDigit(tail[0])
    ensures LeadingDigits(d + tail) == d
    decreases |d|
  {
    if d == [] {
      assert d + tail == tail;
    } else {
      LeadingDigitsStop(d[1..], tail);
      DropFirstOfAppend(d, tail);
    }
  }

  lemma DropFirstOfAppend(a: string, b: string)
    requires a != []
    ensures (a + b)[0] == a[0] && (a + b)[1..] == a[1..] + b
  {
  }

  /** `parseInt` reads the number at the front of a text and ignores the
      non-digit text after it. */
  lemma DigitsThenText(d: string, tail: string)
    requires d != [] && AllDigits(d)
    requires tail == [] || !IsDigit(tail[0])
    ensures ParseInt(d + tail) == Some(DigitsValue(d) as int)
  {
    var s := d + tail;
    LeadingDigitsStop(d, tail);
    DigitFirstUntrimmed(s, d[0]);
    assert ParseSigned(s) == Some(DigitsValue(LeadingDigits(s)) as int);
  }

  /** Text that starts with a digit has no leading whitespace to skip. */
  lemma DigitFirstUntrimmed(s: string, c: char)
    requires s != [] && s[0] == c && IsDigit(c)
    ensures TrimStart(s) == s && s[0] != '-' && s[0] != '+'
  {
  }

  /** A run of digits, with or without a minus sign, reads as its value
      once whitespace is gone. */
  lemma DigitsRead(d: string)
    requires d != [] && AllDigits(d)
    ensures ParseSigned(d) == Some(DigitsValue(d) as int)
    ensures ParseSigned(['-'] + d) == Some(0 - DigitsValue(d) as int)
    ensures TrimmedNumber(d) == Some(DigitsValue(d) as int)
    ensures TrimmedNumber(['-'] + d) == Some(0 - DigitsValue(d) as int)
  {
    LeadingDigitsOfDigits(d);
    assert IsDigit(d[0]);
    assert (['-'] + d)[1..] == d;
  }

  /** Digits, with or without a minus sign, carry no whitespace to trim. */
  lemma DigitsTrimmed(d: string)
    requires d != [] && AllDigits(d)
    ensures TrimStart(d) == d && Trim(d) == d
  {
    assert IsDigit(d[0]) && IsDigit(d[|d| - 1]);
    assert TrimStart(d) == d;
    assert TrimEnd(d) == d;
  }

  lemma SignedDigitsTrimmed(d: string)
    requires d != [] && AllDigits(d)
    ensures TrimStart(['-'] + d) == ['-'] + d && Trim(['-'] + d) == ['-'] + d
  {
    var s := ['-'] + d;
    assert s[|s| - 1] == d[|d| - 1] && IsDigit(d[|d| - 1]);
    assert TrimStart(s) == s;
    assert TrimEnd(s) == s;
  }

  lemma NatToStringReads(n: nat)
    ensures ParseInt(NatToString(n)) == Some(n as int)
    ensures JsNumber(NatToString(n)) == Some(n as int)
  {
    NatToStringValue(n);
    DigitsRead(NatToString(n));
    DigitsTrimmed(NatToString(n));
  }

  lemma NegativeToStringReads(n: nat)
    ensures ParseInt(['-'] + NatToString(n)) == Some(0 - n)
    ensures JsNumber(['-'] + NatToString(n)) == Some(0 - n)
  {
    NatToStringValue(n);
    DigitsRead(NatToString(n));
    SignedDigitsTrimmed(NatToString(n));
  }

  lemma NonNegativeReads(i: int)
    requires i >= 0
    ensures ParseInt(IntToString(i)) == Some(i) && JsNumber(IntToString(i)) == Some(i)
  {
    NatToStringReads(i);
  }

  lemma NegativeReads(i: int)
    requires i < 0
    ensures ParseInt(IntToString(i)) == Some(i) && JsNumber(IntToString(i)) == Some(i)
  {
    NegativeToStringReads(-i);
  }

  /** `parseInt` reads back what `toString` wrote. */
  lemma ParseIntToString(i: int)
    ensures ParseInt(IntToString(i)) == Some(i)
  {
    if i < 0 {
      NegativeReads(i);
    } else {
      NonNegativeReads(i);
    }
  }

  /** `Number` reads back what `toString` wrote. */
  lemma JsNumberToString(i: int)
    ensures JsNumber(IntToString(i)) == Some(i)
  {
    if i < 0 {
      NegativeReads(i);
    } else {
      NonNegativeReads(i);
    }
  }

  // ------------------------------------------------------------- remainder

  /** The quotient of `a / b` truncated toward zero (`Math.trunc(a / b)`). */
  function JsQuot(a: int, b: int): int
    requires b > 0
  {
    if a < 0 then -((-a) / b) else a / b
  }

  /** JavaScript's `a % b` for a positive divisor: the remainder of the
      division truncated toward zero, so it carries the sign of `a`. */
  function JsRem(a: int, b: int): (r: int)
    requires b > 0
    ensures a == JsQuot(a, b) * b + r
    ensures -b < r < b
    ensures a >= 0 ==> r >= 0
    ensures a <= 0 ==> r <= 0
  {
    if a < 0 then -((-a) % b) else if a == 0 then 0 else a % b
  }
}
