/**
 * The pieces of the C++ string library the reader relies on: `std::string::find`,
 * `isspace`, `std::stoi` (read as a decimal integer) and the decimal form `operator<<`
 * writes for an integer.
 */
module Text {
  import opened Base

  /** `s.find(c, from)`: the first position at or after `from` holding `c`; `None` stands for `npos`. */
  function Find(s: string, c: char, from: nat): (r: Option<nat>)
    decreases |s| - from
    ensures r.Some? ==> from <= r.value < |s| && s[r.value] == c
    ensures r.Some? ==> forall i :: from <= i < r.value ==> s[i] != c
    ensures r.None? ==> forall i :: from <= i < |s| ==> s[i] != c
  {
    if from >= |s| then None
    else if s[from] == c then Some(from)
    else Find(s, c, from + 1)
  }

  /** `c` does not occur in `s` at or after `from` exactly when `find` returns `npos`. */
  lemma FindNone(s: string, c: char, from: nat)
    requires from <= |s|
    ensures Find(s, c, from).None? <==> c !in s[from..]
  {
    if c in s[from..] {
      var i :| 0 <= i < |s[from..]| && s[from..][i] == c;
      assert s[from + i] == c;
    }
  }

  /** The parts of `t` that end at each `c`, in order: every part but the last. */
  function Pieces(t: string, c: char): (pieces: seq<string>)
    decreases |t|
    ensures forall k :: 0 <= k < |pieces| ==> c !in pieces[k]
  {
    match Find(t, c, 0)
    case None => []
    case Some(to) =>
      assert forall x :: x in t[..to] ==> x != c;
      [t[..to]] + Pieces(t[to + 1..], c)
  }

  /** The part of `t` after its last `c` (all of `t` when it has none). */
  function LastPiece(t: string, c: char): (last: string)
    decreases |t|
    ensures c !in last && |last| <= |t|
  {
    match Find(t, c, 0)
    case None =>
      FindNone(t, c, 0);
      t
    case Some(to) => LastPiece(t[to + 1..], c)
  }

  /** The last part is a suffix of the text. */
  lemma {:induction false} LastPieceIsSuffix(t: string, c: char)
    decreases |t|
    ensures LastPiece(t, c) == t[|t| - |LastPiece(t, c)|..]
  {
    match Find(t, c, 0)
    case None =>
    case Some(to) =>
      var u := t[to + 1..];
      LastPieceIsSuffix(u, c);
      var n := |LastPiece(u, c)|;
      assert u[|u| - n..] == t[|t| - n..];
  }

  /** The parts separated by single `c`s. */
  function Join(parts: seq<string>, c: char): string
  {
    if parts == [] then ""
    else if |parts| == 1 then parts[0]
    else parts[0] + [c] + Join(parts[1..], c)
  }

  /** Cutting at every `c` and joining the parts again gives back the text. */
  lemma {:induction false} JoinPieces(t: string, c: char)
    decreases |t|
    ensures Join(Pieces(t, c) + [LastPiece(t, c)], c) == t
  {
    match Find(t, c, 0)
    case None =>
    case Some(to) =>
      var u := t[to + 1..];
      var rest := Pieces(u, c) + [LastPiece(u, c)];
      assert Pieces(t, c) + [LastPiece(t, c)] == [t[..to]] + rest;
      JoinPieces(u, c);
      JoinCons(t[..to], rest, c);
      SplitAt(t, to);
  }

  lemma SplitAt(t: string, i: nat)
    requires i < |t|
    ensures t == t[..i] + [t[i]] + t[i + 1..]
  {
  }

  lemma SuffixOfSuffix(s: string, from: nat, n: nat)
    requires from <= |s| && n <= |s| - from
    ensures s[from..][|s| - from - n..] == s[|s| - n..]
  {
  }

  lemma JoinCons(x: string, rest: seq<string>, c: char)
    requires rest != []
    ensures Join([x] + rest, c) == x + [c] + Join(rest, c)
  {
    assert ([x] + rest)[1..] == rest;
  }

  /** Joining parts free of `c` and cutting at every `c` gives back the parts. */
  lemma {:induction false} PiecesOfJoin(parts: seq<string>, c: char, post: string)
    requires |parts| > 0 && (forall k :: 0 <= k < |parts| ==> c !in parts[k]) && c !in post
    ensures Pieces(Join(parts, c) + post, c) == parts[..|parts| - 1]
    ensures LastPiece(Join(parts, c) + post, c) == parts[|parts| - 1] + post
    decreases |parts|
  {
    var t := Join(parts, c) + post;
    var x := parts[0];
    if |parts| == 1 {
      FindNone(t, c, 0);
      assert t[0..] == t;
    } else {
      var u := Join(parts[1..], c) + post;
      assert t == x + [c] + u;
      FirstSeparator(t, c, x, u);
      PiecesOfJoin(parts[1..], c, post);
      assert parts[..|parts| - 1] == [x] + parts[1..][..|parts| - 2];
    }
  }

  /** A character other than the separator occurs in the joined text only if it occurs in a part. */
  lemma {:induction false} JoinFree(parts: seq<string>, c: char, d: char)
    requires d != c && forall k :: 0 <= k < |parts| ==> d !in parts[k]
    ensures d !in Join(parts, c)
    decreases |parts|
  {
    if |parts| > 1 {
      JoinFree(parts[1..], c, d);
    }
  }

  /** A part free of `c` followed by `c`: `find` stops there. */
  lemma FirstSeparator(t: string, c: char, x: string, u: string)
    requires t == x + [c] + u && c !in x
    ensures Find(t, c, 0) == Some(|x|) && t[..|x|] == x && t[|x| + 1..] == u
  {
    forall i | 0 <= i < |x| ensures t[i] != c {
      assert t[i] == x[i];
    }
    assert t[|x|] == c;
  }

  /** The characters `isspace` accepts in the "C" locale. */
  predicate IsSpace(c: char) {
    c == ' ' || c == '\t' || c == '\n' || c == '\U{000B}' || c == '\U{000C}' || c == '\r'
  }

  predicate IsDigit(c: char) { '0' <= c <= '9' }

  predicate IsSign(c: char) { c == '+' || c == '-' }

  function DigitValue(c: char): nat
    requires IsDigit(c)
  {
    (c as int) - ('0' as int)
  }

  function DigitChar(d: nat): (c: char)
    requires d < 10
    ensures IsDigit(c) && DigitValue(c) == d
  {
    ('0' as int + d) as char
  }

  predicate AllDigits(s: string) { forall k :: 0 <= k < |s| ==> IsDigit(s[k]) }

  /** First position at or after `i` that is not white space. */
  function SkipSpaces(s: string, i: nat): (j: nat)
    requires i <= |s|
    decreases |s| - i
    ensures i <= j <= |s|
    ensures forall k :: i <= k < j ==> IsSpace(s[k])
    ensures j < |s| ==> !IsSpace(s[j])
  {
    if i < |s| && IsSpace(s[i]) then SkipSpaces(s, i + 1) else i
  }

  /** End of the run of decimal digits that starts at `i`. */
  function DigitEnd(s: string, i: nat): (j: nat)
    requires i <= |s|
    decreases |s| - i
    ensures i <= j <= |s|
    ensures forall k :: i <= k < j ==> IsDigit(s[k])
    ensures j < |s| ==> !IsDigit(s[j])
  {
    if i < |s| && IsDigit(s[i]) then DigitEnd(s, i + 1) else i
  }

  /** The value of a string of decimal digits, most significant first. */
  function DigitsValue(ds: string): nat
    requires AllDigits(ds)
  {
    if ds == [] then 0 else DigitsValue(ds[..|ds| - 1]) * 10 + DigitValue(ds[|ds| - 1])
  }

  /**
   * `std::stoi(s)` in base 10: leading white space, an optional sign, then one or more
   * digits; whatever follows the digits is ignored. `None` is the `invalid_argument`
   * the library throws when no digit is found. The value is not bounded here: the
   * 32-bit range check is the caller's.
   */
  function ParseInt(s: string): Option<int>
  {
    var i := SkipSpaces(s, 0);
    var j := if i < |s| && IsSign(s[i]) then i + 1 else i;
    var k := DigitEnd(s, j);
    if k == j then None
    else
      var v: int := DigitsValue(s[j..k]);
      Some(if i < |s| && s[i] == '-' then -v else v)
  }

  /** `stoi` fails exactly when no digit follows the leading white space and optional sign. */
  lemma ParseIntSucceeds(s: string)
    ensures ParseInt(s).Some? <==> exists k :: 0 <= k < |s| && IsDigit(s[k]) && LeadIn(s, k)
  {
    var i := SkipSpaces(s, 0);
    var j := if i < |s| && IsSign(s[i]) then i + 1 else i;
    if DigitEnd(s, j) != j {
      assert IsDigit(s[j]) && LeadIn(s, j);
    }
  }

  /** Everything before position `k` is white space, except that `s[k - 1]` may be a sign. */
  predicate LeadIn(s: string, k: nat)
    requires k <= |s|
  {
    forall m :: 0 <= m < k ==> IsSpace(s[m]) || (m == k - 1 && IsSign(s[m]))
  }

  /** The decimal digits of `n`, without leading zeros. */
  function NatToString(n: nat): (s: string)
    ensures |s| > 0 && AllDigits(s)
  {
    if n < 10 then [DigitChar(n)] else NatToString(n / 10) + [DigitChar(n % 10)]
  }

  /** What `std::ostream << int` writes: a minus sign for negative values, then the digits. */
  function IntToString(n: int): (s: string)
    ensures |s| > 0 && (n >= 0 ==> AllDigits(s))
    ensures n < 0 ==> s[0] == '-' && AllDigits(s[1..])
  {
    if n < 0 then "-" + NatToString(-n) else NatToString(n)
  }

  lemma {:induction false} DigitsValueOfNatToString(n: nat)
    ensures DigitsValue(NatToString(n)) == n
  {
    if n >= 10 {
      DigitsValueOfNatToString(n / 10);
      var s := NatToString(n);
      assert s[..|s| - 1] == NatToString(n / 10);
    }
  }

  /** The integer writer and `stoi` are inverse: a printed integer reads back as itself. */
  lemma ParseIntOfIntToString(n: int, rest: string)
    requires rest == [] || !IsDigit(rest[0])
    ensures ParseInt(IntToString(n) + rest) == Some(n)
  {
    if n < 0 {
      var t := NatToString(-n);
      assert IntToString(n) == "-" + t;
      assert ("-" + t) + rest == "-" + (t + rest);
      ParseIntOfNegative(-n, rest);
    } else {
      ParseIntOfNatToString(n, rest);
    }
  }

  lemma ParseIntOfNatToString(m: nat, rest: string)
    requires rest == [] || !IsDigit(rest[0])
    ensures ParseInt(NatToString(m) + rest) == Some(m)
  {
    var digits := NatToString(m);
    var s := digits + rest;
    assert s[0] == digits[0] && s[0..] == digits + rest;
    DigitEndOver(s, 0, digits, rest);
    ParseIntShape(s, 0, |digits|);
    assert s[0..|digits|] == digits;
    DigitsValueOfNatToString(m);
  }

  lemma ParseIntOfNegative(m: nat, rest: string)
    requires rest == [] || !IsDigit(rest[0])
    ensures ParseInt("-" + (NatToString(m) + rest)) == Some(-(m as int))
  {
    var digits := NatToString(m);
    var s := "-" + (digits + rest);
    assert s[1..] == digits + rest;
    DigitEndOver(s, 1, digits, rest);
    ParseIntShape(s, 1, 1 + |digits|);
    assert s[1..1 + |digits|] == digits;
    DigitsValueOfNatToString(m);
  }

  /** `stoi` on a line without leading white space whose digits run from `j` to `k`. */
  lemma ParseIntShape(s: string, j: nat, k: nat)
    requires j < k <= |s| && (j == 0 || (j == 1 && IsSign(s[0]))) && !IsSpace(s[0])
    requires j == 0 ==> !IsSign(s[0])
    requires DigitEnd(s, j) == k
    ensures ParseInt(s) == Some(if j == 1 && s[0] == '-' then -(DigitsValue(s[j..k]) as int) else DigitsValue(s[j..k]))
  {
    assert SkipSpaces(s, 0) == 0;
  }

  lemma DigitEndOver(s: string, j: nat, digits: string, rest: string)
    requires j + |digits| + |rest| == |s| && s[j..] == digits + rest
    requires AllDigits(digits) && (rest == [] || !IsDigit(rest[0]))
    ensures DigitEnd(s, j) == j + |digits|
    decreases |digits|
  {
    if digits != [] {
      assert s[j] == digits[0];
      assert s[j + 1..] == digits[1..] + rest;
      DigitEndOver(s, j + 1, digits[1..], rest);
    } else if rest != [] {
      assert s[j] == rest[0];
    }
  }
}
