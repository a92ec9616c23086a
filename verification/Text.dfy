/** Text building blocks: optional values, decimal numerals, splitting and
    joining on a separator.  Splitting is generic, so that a text may hold
    opaque symbols besides characters. */
module Text {

  datatype Option<+T> = None | Some(value: T)

  // ------------------------------------------------------------------ decimals

  const DIGITS := "0123456789"

  function PrintNat(n: nat): (s: string)
    ensures s != ""
    ensures forall i :: 0 <= i < |s| ==> '0' <= s[i] <= '9'
  {
    if n < 10 then [DIGITS[n]] else PrintNat(n / 10) + [DIGITS[n % 10]]
  }

  /** The zeros of the decimal digits that Python's `int` reads (Unicode 15.0);
      each is followed by its one to nine. */
  const ZEROS := "0"
    + "\U{660}\U{6F0}\U{7C0}\U{966}\U{9E6}\U{A66}\U{AE6}\U{B66}\U{BE6}\U{C66}\U{CE6}\U{D66}"
    + "\U{DE6}\U{E50}\U{ED0}\U{F20}\U{1040}\U{1090}\U{17E0}\U{1810}\U{1946}\U{19D0}\U{1A80}\U{1A90}"
    + "\U{1B50}\U{1BB0}\U{1C40}\U{1C50}\U{A620}\U{A8D0}\U{A900}\U{A9D0}\U{A9F0}\U{AA50}\U{ABF0}\U{FF10}"
    + "\U{104A0}\U{10D30}\U{11066}\U{110F0}\U{11136}\U{111D0}\U{112F0}\U{11450}\U{114D0}\U{11650}\U{116C0}\U{11730}"
    + "\U{118E0}\U{11950}\U{11C50}\U{11D50}\U{11DA0}\U{11F50}\U{16A60}\U{16AC0}\U{16B50}\U{1D7CE}\U{1D7D8}\U{1D7E2}"
    + "\U{1D7EC}\U{1D7F6}\U{1E140}\U{1E2F0}\U{1E4F0}\U{1E950}\U{1FBF0}"

  function DecimalFrom(c: char, zeros: string): Option<nat> {
    if zeros == "" then None
    else if 0 <= c as int - zeros[0] as int <= 9 then Some(c as int - zeros[0] as int)
    else DecimalFrom(c, zeros[1..])
  }

  /** Digits, with single underscores between them. */
  function ParseNat(s: string): Option<nat> {
    if s == "" then None
    else
      var digit := DecimalFrom(s[|s| - 1], ZEROS);
      if digit == None || |s| == 1 then digit
      else
        match ParseNat(s[..if s[|s| - 2] == '_' then |s| - 2 else |s| - 1])
        case None => None
        case Some(n) => Some(10 * n + digit.value)
  }

  lemma DigitValue(d: nat)
    requires d < 10
    ensures DecimalFrom(DIGITS[d], ZEROS) == Some(d) && DIGITS[d] != '_'
  {
    assert ZEROS[0] == '0';
  }

  lemma ParseAppend(head: string, c: char, d: nat)
    requires head != "" && head[|head| - 1] != '_' && DecimalFrom(c, ZEROS) == Some(d)
    ensures ParseNat(head + [c]) == match ParseNat(head) case None => None case Some(n) => Some(10 * n + d)
  {
    hide ZEROS, DecimalFrom;
    assert (head + [c])[..|head|] == head;
  }

  lemma {:induction false} ParsePrintNat(n: nat)
    ensures ParseNat(PrintNat(n)) == Some(n)
  {
    hide ZEROS, DecimalFrom;
    DigitValue(n % 10);
    if n >= 10 {
      hide ParseNat;
      ParsePrintNat(n / 10);
      ParseAppend(PrintNat(n / 10), DIGITS[n % 10], n % 10);
    }
  }

  // -------------------------------------------------------------------- trimming

  /** The whitespace that Python and JavaScript agree on. */
  predicate IsBlank(c: char) {
    '\t' <= c <= '\r' || c == ' ' || c == '\U{A0}' || c == '\U{1680}' || '\U{2000}' <= c <= '\U{200A}'
    || c == '\U{2028}' || c == '\U{2029}' || c == '\U{202F}' || c == '\U{205F}' || c == '\U{3000}'
  }

  /** Its code points. */
  lemma BlankCodes(c: char)
    ensures var code := c as int;
            IsBlank(c)
            <==> 9 <= code <= 13 || code == 32 || code == 160 || code == 5760 || 8192 <= code <= 8202
                 || code == 8232 || code == 8233 || code == 8239 || code == 8287 || code == 12288
  {
  }

  function TrimLeft(s: string, blank: char -> bool): string {
    if s != "" && blank(s[0]) then TrimLeft(s[1..], blank) else s
  }

  function TrimRight(s: string, blank: char -> bool): string {
    if s != "" && blank(s[|s| - 1]) then TrimRight(s[..|s| - 1], blank) else s
  }

  function Trim(s: string, blank: char -> bool): string {
    TrimRight(TrimLeft(s, blank), blank)
  }

  /** t is s without the blanks around it. */
  ghost predicate IsTrimmed(s: string, t: string, blank: char -> bool) {
    exists i, j :: CutsBlanks(s, i, j, blank) && t == s[i..j]
  }

  /** What lies before i and from j on is blank, what lies between does not begin or
      end with a blank. */
  ghost predicate CutsBlanks(s: string, i: int, j: int, blank: char -> bool) {
    && 0 <= i <= j <= |s|
    && (forall k :: 0 <= k < i || j <= k < |s| ==> blank(s[k]))
    && (i < j ==> !blank(s[i]) && !blank(s[j - 1]))
  }

  lemma {:induction false} TrimLeftCut(s: string, blank: char -> bool) returns (i: nat)
    ensures i <= |s| && TrimLeft(s, blank) == s[i..]
    ensures (forall k :: 0 <= k < i ==> blank(s[k])) && (i < |s| ==> !blank(s[i]))
  {
    i := 0;
    if s != "" && blank(s[0]) {
      var n := TrimLeftCut(s[1..], blank);
      assert s[1..][n..] == s[n + 1..];
      assert forall k :: 0 <= k < n ==> s[1..][k] == s[k + 1];
      i := n + 1;
    }
  }

  lemma {:induction false} TrimRightCut(s: string, blank: char -> bool) returns (j: nat)
    ensures j <= |s| && TrimRight(s, blank) == s[..j]
    ensures (forall k :: j <= k < |s| ==> blank(s[k])) && (j > 0 ==> !blank(s[j - 1]))
  {
    j := |s|;
    if s != "" && blank(s[|s| - 1]) {
      j := TrimRightCut(s[..|s| - 1], blank);
      assert s[..|s| - 1][..j] == s[..j];
    }
  }

  lemma TrimExactly(s: string, t: string, blank: char -> bool)
    ensures t == Trim(s, blank) <==> IsTrimmed(s, t, blank)
  {
    hide TrimLeft, TrimRight;
    var i := TrimLeftCut(s, blank);
    var n := TrimRightCut(s[i..], blank);
    assert s[i..][..n] == s[i..i + n];
    assert CutsBlanks(s, i, i + n, blank) by {
      forall k | i + n <= k < |s| ensures blank(s[k]) {
        assert s[k] == s[i..][k - i];
      }
      if n > 0 {
        assert s[i..][n - 1] == s[i + n - 1];
      }
    }
    if k, l :| CutsBlanks(s, k, l, blank) && t == s[k..l] {
      CutUnique(s, i, i + n, k, l, blank);
    }
  }

  lemma CutUnique(s: string, i: int, j: int, k: int, l: int, blank: char -> bool)
    requires CutsBlanks(s, i, j, blank) && CutsBlanks(s, k, l, blank)
    ensures s[i..j] == s[k..l]
  {
    if i < j {
      assert k <= i < l && k <= j - 1 < l;
    }
    if k < l {
      assert i <= k < j && i <= l - 1 < j;
    }
  }

  // ---------------------------------------------------------------------- integers

  /** Python's `str` of an integer. */
  function PrintInt(i: int): (s: string)
    ensures s != ""
    ensures forall k :: 0 <= k < |s| ==> s[k] == '-' || '0' <= s[k] <= '9'
  {
    if i < 0 then "-" + PrintNat(-i) else PrintNat(i)
  }

  predicate IsIntBlank(c: char) {
    IsBlank(c) || c == '\U{85}'
  }

  /** Python's `int` of a text: blanks around it, a sign, digits. */
  function ParseInt(text: string): Option<int> {
    var s := Trim(text, IsIntBlank);
    var signed := s != "" && (s[0] == '-' || s[0] == '+');
    match ParseNat(if signed then s[1..] else s)
    case None => None
    case Some(n) => var i: int := n; Some(if signed && s[0] == '-' then -i else i)
  }

  lemma ParsePrintInt(i: int)
    ensures ParseInt(PrintInt(i)) == Some(i)
  {
    hide PrintNat, ParseNat;
    if i < 0 {
      assert PrintInt(i)[1..] == PrintNat(-i);
      ParsePrintNat(-i);
    } else {
      ParsePrintNat(i);
    }
  }

  predicate AllDigits(s: string) {
    forall i :: 0 <= i < |s| ==> '0' <= s[i] <= '9'
  }

  lemma DigitIsDecimal(c: char)
    requires '0' <= c <= '9'
    ensures DecimalFrom(c, ZEROS) == Some(c as int - '0' as int) && c != '_'
  {
    assert ZEROS[0] == '0';
  }

  /** An underscore between digits counts for nothing. */
  lemma {:induction false} UnderscoreIgnored(a: string, b: string)
    requires a != "" && b != "" && AllDigits(a) && AllDigits(b)
    ensures ParseNat(a + "_" + b) == ParseNat(a + b)
  {
    hide ZEROS, DecimalFrom, ParseNat;
    var n := |b| - 1;
    var c, d := b[n], b[n] as int - '0' as int;
    DigitIsDecimal(c);
    DigitIsDecimal(a[|a| - 1]);
    assert b == b[..n] + [c];
    if n == 0 {
      UnderscoreStep(a, c, d);
      ParseAppend(a, c, d);
      assert a + "_" + b == a + ['_', c] && a + b == a + [c];
    } else {
      DigitIsDecimal(b[n - 1]);
      UnderscoreIgnored(a, b[..n]);
      ParseAppend(a + "_" + b[..n], c, d);
      ParseAppend(a + b[..n], c, d);
      assert a + "_" + b == a + "_" + b[..n] + [c] && a + b == a + b[..n] + [c];
    }
  }

  lemma UnderscoreStep(a: string, c: char, d: nat)
    requires a != "" && DecimalFrom(c, ZEROS) == Some(d)
    ensures ParseNat(a + ['_', c]) == match ParseNat(a) case None => None case Some(n) => Some(10 * n + d)
  {
    hide ZEROS, DecimalFrom;
    assert (a + ['_', c])[..|a|] == a;
  }

  /** Blanks around an integer count for nothing. */
  lemma BlanksIgnored(i: int, before: string, after: string)
    requires forall k :: 0 <= k < |before| ==> IsIntBlank(before[k])
    requires forall k :: 0 <= k < |after| ==> IsIntBlank(after[k])
    ensures ParseInt(before + PrintInt(i) + after) == Some(i)
  {
    hide PrintInt, ParseNat, Trim, IsIntBlank;
    var s := PrintInt(i);
    NotBlank(s[0]);
    NotBlank(s[|s| - 1]);
    TrimsTo(before, s, after);
    TrimsTo("", s, "");
    assert "" + s + "" == s;
    ParsePrintInt(i);
  }

  lemma NotBlank(c: char)
    requires c == '-' || c == '+' || '0' <= c <= '9'
    ensures !IsIntBlank(c)
  {
  }

  /** So does a plus before a natural number. */
  lemma PlusIgnored(n: nat)
    ensures ParseInt("+" + PrintNat(n)) == Some(n)
  {
    hide PrintNat, ParseNat, Trim, IsIntBlank;
    var s := "+" + PrintNat(n);
    NotBlank(s[0]);
    NotBlank(s[|s| - 1]);
    TrimsTo("", s, "");
    assert "" + s + "" == s && s[1..] == PrintNat(n);
    ParsePrintNat(n);
  }

  lemma TrimsTo(before: string, s: string, after: string)
    requires forall k :: 0 <= k < |before| ==> IsIntBlank(before[k])
    requires forall k :: 0 <= k < |after| ==> IsIntBlank(after[k])
    requires s != "" && !IsIntBlank(s[0]) && !IsIntBlank(s[|s| - 1])
    ensures Trim(before + s + after, IsIntBlank) == s
  {
    hide Trim, IsIntBlank;
    var text := before + s + after;
    assert text[|before|..|before| + |s|] == s;
    assert CutsBlanks(text, |before|, |before| + |s|, IsIntBlank);
    TrimExactly(text, s, IsIntBlank);
  }

  // ----------------------------------------------------------------- separators

  /** The text before and after the first separator. */
  function Cut<T(==)>(s: seq<T>, sep: T): Option<(seq<T>, seq<T>)> {
    if s == [] then None
    else if s[0] == sep then Some(([], s[1..]))
    else
      match Cut(s[1..], sep)
      case None => None
      case Some((a, b)) => Some(([s[0]] + a, b))
  }

  lemma {:induction false} CutAt<T>(a: seq<T>, sep: T, b: seq<T>)
    requires sep !in a
    ensures Cut(a + [sep] + b, sep) == Some((a, b))
  {
    var s := a + [sep] + b;
    if a == [] {
      assert s[1..] == b;
    } else {
      assert s[1..] == a[1..] + [sep] + b;
      CutAt(a[1..], sep, b);
      assert [a[0]] + a[1..] == a;
    }
  }

  function Split<T(==)>(s: seq<T>, sep: T): (parts: seq<seq<T>>)
    ensures parts != []
  {
    if s == [] then [[]]
    else
      var rest := Split(s[1..], sep);
      if s[0] == sep then [[]] + rest else [[s[0]] + rest[0]] + rest[1..]
  }

  function Join<T>(parts: seq<seq<T>>, sep: T): seq<T> {
    if parts == [] then []
    else if |parts| == 1 then parts[0]
    else parts[0] + [sep] + Join(parts[1..], sep)
  }

  lemma {:induction false} SplitFree<T>(a: seq<T>, sep: T)
    requires sep !in a
    ensures Split(a, sep) == [a]
  {
    if a != [] {
      SplitFree(a[1..], sep);
      assert [a[0]] + a[1..] == a;
    }
  }

  lemma {:induction false} SplitAt<T>(a: seq<T>, sep: T, b: seq<T>)
    requires sep !in a
    ensures Split(a + [sep] + b, sep) == [a] + Split(b, sep)
  {
    var s := a + [sep] + b;
    if a == [] {
      assert s[1..] == b;
    } else {
      assert s[1..] == a[1..] + [sep] + b;
      SplitAt(a[1..], sep, b);
      assert [a[0]] + a[1..] == a;
    }
  }

  /** Splitting undoes joining. */
  lemma {:induction false} SplitJoin<T>(parts: seq<seq<T>>, sep: T)
    requires parts != [] && forall p :: p in parts ==> sep !in p
    ensures Split(Join(parts, sep), sep) == parts
  {
    if |parts| == 1 {
      SplitFree(parts[0], sep);
    } else {
      SplitAt(parts[0], sep, Join(parts[1..], sep));
      SplitJoin(parts[1..], sep);
    }
  }

  /** Two texts that end in a separator-free part after a separator agree only
      when both halves agree. */
  lemma LastPartUnique<T>(a: seq<T>, x: seq<T>, b: seq<T>, y: seq<T>, sep: T)
    requires sep !in x && sep !in y && a + [sep] + x == b + [sep] + y
    ensures a == b && x == y
  {
    var s, t := a + [sep] + x, b + [sep] + y;
    assert s[|a|] == sep && t[|b|] == sep;
    assert forall i :: |b| < i < |t| ==> t[i] != sep;
    assert forall i :: |a| < i < |s| ==> s[i] != sep;
    assert |a| == |b|;
    assert s[..|a|] == a && t[..|b|] == b;
    assert s[|a| + 1..] == x && t[|b| + 1..] == y;
  }

  /** The same for a separator-free first part. */
  lemma FirstPartUnique<T>(a: seq<T>, x: seq<T>, b: seq<T>, y: seq<T>, sep: T)
    requires sep !in a && sep !in b && a + [sep] + x == b + [sep] + y
    ensures a == b && x == y
  {
    CutAt(a, sep, x);
    CutAt(b, sep, y);
  }

  /** What one more symbol in front does to the parts. */
  function Grown<T(==)>(c: T, sep: T, parts: seq<seq<T>>): seq<seq<T>>
    requires parts != []
  {
    if c == sep then [[]] + parts else [[c] + parts[0]] + parts[1..]
  }

  lemma GrownConcat<T>(c: T, sep: T, x: seq<seq<T>>, y: seq<seq<T>>)
    requires x != []
    ensures Grown(c, sep, x + y) == Grown(c, sep, x) + y
  {
    assert (x + y)[0] == x[0] && (x + y)[1..] == x[1..] + y;
  }

  lemma SplitFirst<T>(c: T, rest: seq<T>, sep: T)
    ensures Split([c] + rest, sep) == Grown(c, sep, Split(rest, sep))
    ensures Split<T>([], sep) == [[]]
  {
    assert ([c] + rest)[1..] == rest;
  }

  /** Splitting works piece by piece. */
  lemma {:induction false} SplitConcat<T>(a: seq<T>, sep: T, b: seq<T>)
    ensures Split(a + [sep] + b, sep) == Split(a, sep) + Split(b, sep)
  {
    hide Split, Grown;
    if a == [] {
      assert a + [sep] + b == [sep] + b;
      SplitFirst(sep, b, sep);
      GrownAtSeparator(sep, Split(b, sep));
    } else {
      var c, rest := a[0], a[1..];
      assert a == [c] + rest && a + [sep] + b == [c] + (rest + [sep] + b);
      SplitConcat(rest, sep, b);
      SplitFirst(c, rest, sep);
      SplitFirst(c, rest + [sep] + b, sep);
      GrownConcat(c, sep, Split(rest, sep), Split(b, sep));
    }
  }

  lemma GrownAtSeparator<T>(sep: T, parts: seq<seq<T>>)
    requires parts != []
    ensures Grown(sep, sep, parts) == [[]] + parts
  {
  }
}
