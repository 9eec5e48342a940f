/** The Go string helpers the consumers rely on: `string(b)` on a byte
    buffer, `bytes.IndexByte`, `cleanString`, `bytes.TrimRight(b, "\x00")`,
    `strings.Join`, and the integer renderings of `fmt` (`%d`, `%x`, `%o`),
    each with the partner that undoes or characterises it. */
module Text {
  import opened Machine
  import opened Wrappers

  /** Go's `string(b)`: the bytes are kept as they are; each byte becomes
      the character with the same code. */
  function FromBytes(b: seq<byte>): (s: string)
    ensures |s| == |b|
    ensures forall i :: 0 <= i < |b| ==> s[i] as int == b[i]
  {
    seq(|b|, i requires 0 <= i < |b| => b[i] as char)
  }

  /** Distinct buffers give distinct strings: nothing is lost in the conversion. */
  lemma FromBytesInjective(a: seq<byte>, b: seq<byte>)
    requires FromBytes(a) == FromBytes(b)
    ensures a == b
  {
    assert |a| == |b|;
    forall i | 0 <= i < |a|
      ensures a[i] == b[i]
    {
      assert FromBytes(a)[i] == FromBytes(b)[i];
    }
  }

  /** Index of the first `x` in `s`, or -1 (`bytes.IndexByte`). */
  function IndexOf<T(==)>(s: seq<T>, x: T): (i: int)
    ensures -1 <= i < |s|
    ensures i == -1 <==> x !in s
    ensures 0 <= i ==> s[i] == x && x !in s[..i]
  {
    if |s| == 0 then -1
    else if s[0] == x then 0
    else
      var j := IndexOf(s[1..], x);
      if j == -1 then -1
      else
        assert s[..j + 1] == [s[0]] + s[1..][..j];
        j + 1
  }

  /** `cleanString` (events.go): the part of the buffer before its first
      NUL, or the whole buffer when it holds none. */
  function CleanString(data: seq<byte>): (s: string)
    ensures |s| <= |data|
    ensures s == FromBytes(data[..|s|])
    ensures 0 !in data[..|s|]
    ensures |s| < |data| ==> data[|s|] == 0
  {
    var n := IndexOf(data, 0);
    if n == -1 then FromBytes(data) else FromBytes(data[..n])
  }

  /** Whatever prefix-before-NUL a caller computes by other means, it is
      the one `CleanString` returns. */
  lemma CleanStringUnique(data: seq<byte>, k: nat)
    requires k <= |data| && 0 !in data[..k]
    requires k < |data| ==> data[k] == 0
    ensures CleanString(data) == FromBytes(data[..k])
  {
  }

  /** A name padded with NULs is recovered exactly. */
  lemma CleanStringOfPadded(name: seq<byte>, pad: nat)
    requires 0 !in name
    ensures CleanString(name + seq(pad, _ => 0)) == FromBytes(name)
  {
    var data := name + seq(pad, _ => 0);
    assert data[..|name|] == name;
    CleanStringUnique(data, |name|);
  }

  /** `bytes.TrimRight(b, "\x00")`: drops the trailing run of NUL bytes. */
  function TrimRightNul(b: seq<byte>): (r: seq<byte>)
    ensures |r| <= |b| && r == b[..|r|]
    ensures forall i :: |r| <= i < |b| ==> b[i] == 0
    ensures |r| == 0 || r[|r| - 1] != 0
    decreases |b|
  {
    if |b| > 0 && b[|b| - 1] == 0 then TrimRightNul(b[..|b| - 1]) else b
  }

  /** A cut that leaves a non-NUL byte last and only NULs after it is the one trimming makes. */
  lemma {:induction false} TrimRightNulUnique(b: seq<byte>, k: nat)
    requires k <= |b| && (k == 0 || b[k - 1] != 0)
    requires forall i :: k <= i < |b| ==> b[i] == 0
    ensures TrimRightNul(b) == b[..k]
    decreases |b|
  {
    if |b| > k {
      TrimRightNulUnique(b[..|b| - 1], k);
      assert b[..|b| - 1][..k] == b[..k];
    } else {
      assert b[..k] == b;
    }
  }

  /** Trimming only removes NULs at the very end: a NUL with any non-NUL
      byte after it survives, and so does everything after it. */
  lemma TrimRightKeepsInteriorNul(b: seq<byte>, i: nat, j: nat)
    requires i < j < |b| && b[i] == 0 && b[j] != 0
    ensures |TrimRightNul(b)| > j
    ensures TrimRightNul(b)[i] == 0
  {
  }

  /** `strings.Join`: the items in order with `sep` between neighbours. */
  function Join(items: seq<string>, sep: string): (r: string)
    ensures |items| == 0 ==> r == ""
    ensures |items| >= 1 ==> items[0] <= r
    ensures |items| >= 2 ==> items[0] + sep <= r
  {
    if |items| == 0 then ""
    else if |items| == 1 then items[0]
    else items[0] + sep + Join(items[1..], sep)
  }

  /** Joining peels off the last item as well as the first. */
  lemma {:induction false} JoinSnoc(items: seq<string>, sep: string)
    requires |items| >= 2
    ensures Join(items, sep) == Join(items[..|items| - 1], sep) + sep + items[|items| - 1]
    decreases |items|
  {
    if |items| > 2 {
      var rest := items[1..];
      JoinSnoc(rest, sep);
      assert rest[..|rest| - 1] == items[..|items| - 1][1..];
      assert Join(items[..|items| - 1], sep) == items[0] + sep + Join(rest[..|rest| - 1], sep);
    }
  }

  /** `t` is a suffix of `s`. */
  predicate EndsWith(s: string, t: string)
  {
    |t| <= |s| && s[|s| - |t|..] == t
  }

  /** A text joined from three or more items opens with the first two, each
      followed by the separator. */
  lemma JoinOpens(items: seq<string>, c: char)
    requires |items| >= 3
    ensures items[0] + [c] + items[1] + [c] <= Join(items, [c])
  {
    JoinSecond(items, c);
    var p, rest := items[0] + [c] + items[1] + [c], Join(items[2..], [c]);
    assert Join(items, [c]) == p + rest;
    assert (p + rest)[..|p|] == p;
  }

  /** A text joined from two or more items closes with the separator and the last. */
  lemma JoinCloses(items: seq<string>, c: char)
    requires |items| >= 2
    ensures EndsWith(Join(items, [c]), [c] + items[|items| - 1])
  {
    JoinSnoc(items, [c]);
    var init := Join(items[..|items| - 1], [c]);
    Regroup3(init, [c], items[|items| - 1]);
    EndsWithAppended(init, [c] + items[|items| - 1]);
  }

  /** A text ends with whatever was appended to it. */
  lemma EndsWithAppended(s: string, t: string)
    ensures EndsWith(s + t, t)
  {
    assert (s + t)[|s|..] == t;
  }

  /** Of two joined texts that agree, the last fields agree when neither holds the separator. */
  lemma JoinLastField(a: seq<string>, b: seq<string>, c: char)
    requires |a| >= 2 && |b| >= 2
    requires c !in a[|a| - 1] && c !in b[|b| - 1]
    requires Join(a, [c]) == Join(b, [c])
    ensures a[|a| - 1] == b[|b| - 1]
  {
    JoinSnoc(a, [c]);
    JoinSnoc(b, [c]);
    LastField(Join(a[..|a| - 1], [c]), a[|a| - 1], Join(b[..|b| - 1], [c]), b[|b| - 1], c);
  }

  lemma JoinSecond(a: seq<string>, c: char)
    requires |a| >= 3
    ensures Join(a, [c]) == a[0] + [c] + a[1] + [c] + Join(a[2..], [c])
  {
    assert a[1..][1..] == a[2..];
    assert Join(a[1..], [c]) == a[1] + [c] + Join(a[2..], [c]);
  }

  /** Regrouping a tagged field: the tag joins the prefix before it. */
  lemma Regroup(x: string, c: char, tag: string, v: string, rest: string)
    ensures x + [c] + (tag + v) + [c] + rest == (x + [c] + tag) + v + [c] + rest
  {
  }

  /** Of two joined texts that agree and open with the same field, the
      values after a shared tag in the second field agree when neither
      holds the separator. */
  lemma JoinSecondField(a: seq<string>, b: seq<string>, c: char, tag: string, v1: string, v2: string)
    requires |a| >= 3 && |b| >= 3 && a[0] == b[0]
    requires a[1] == tag + v1 && b[1] == tag + v2
    requires c !in v1 && c !in v2
    requires Join(a, [c]) == Join(b, [c])
    ensures v1 == v2
  {
    var p := a[0] + [c] + tag;
    var ra, rb := Join(a[2..], [c]), Join(b[2..], [c]);
    JoinSecond(a, c);
    JoinSecond(b, c);
    Regroup(a[0], c, tag, v1, ra);
    Regroup(b[0], c, tag, v2, rb);
    FirstField(p, v1, ra, v2, rb, c);
  }

  /** `strings.Split` on a single separator character. */
  function Split(s: string, c: char): (parts: seq<string>)
    ensures |parts| >= 1
    decreases |s|
  {
    var i := IndexOf(s, c);
    if i == -1 then [s] else [s[..i]] + Split(s[i + 1..], c)
  }

  /** Joining with a separator that no item contains can be undone by splitting. */
  lemma {:induction false} SplitJoin(items: seq<string>, c: char)
    requires |items| >= 1
    requires forall k :: 0 <= k < |items| ==> c !in items[k]
    ensures Split(Join(items, [c]), c) == items
    decreases |items|
  {
    if |items| == 1 {
    } else {
      var rest := Join(items[1..], [c]);
      var s := items[0] + [c] + rest;
      assert s == Join(items, [c]);
      var i := IndexOf(s, c);
      assert s[|items[0]|] == c;
      assert s[..|items[0]|] == items[0];
      IndexOfUnique(s, c, |items[0]|);
      assert s[i + 1..] == rest;
      SplitJoin(items[1..], c);
      assert Split(s, c) == [items[0]] + items[1..];
    }
  }

  /** A text without the separator splits into itself alone. */
  lemma SplitWithoutSeparator(s: string, c: char)
    requires c !in s
    ensures Split(s, c) == [s]
  {
  }

  /** Splitting at the first separator: a first field without the
      separator comes off whole. */
  lemma SplitAfterFirst(x: string, c: char, rest: string)
    requires c !in x
    ensures Split(x + [c] + rest, c) == [x] + Split(rest, c)
  {
    var s := x + [c] + rest;
    assert s[|x|] == c && s[..|x|] == x && s[|x| + 1..] == rest;
    IndexOfUnique(s, c, |x|);
  }

  /** Splitting a joined text gives back every item but the last, which is
      split in turn: only the last item may hold the separator. */
  lemma {:induction false} SplitJoinLast(items: seq<string>, c: char)
    requires |items| >= 1
    requires forall k :: 0 <= k < |items| - 1 ==> c !in items[k]
    ensures Split(Join(items, [c]), c) == items[..|items| - 1] + Split(items[|items| - 1], c)
    decreases |items|
  {
    if |items| == 1 {
      assert Join(items, [c]) == items[0] && items[..0] == [];
    } else {
      var tail, last := items[1..], items[|items| - 1];
      var init, tailInit := items[..|items| - 1], tail[..|tail| - 1];
      assert tail[|tail| - 1] == last;
      assert init == [items[0]] + tailInit;
      assert forall k :: 0 <= k < |tail| - 1 ==> c !in tail[k] by {
        forall k | 0 <= k < |tail| - 1 ensures c !in tail[k] { assert tail[k] == items[k + 1]; }
      }
      var joined := Join(tail, [c]);
      SplitJoinLast(tail, c);
      assert Split(joined, c) == tailInit + Split(last, c);
      SplitAfterFirst(items[0], c, joined);
      assert Join(items, [c]) == items[0] + [c] + joined;
      Regroup3([items[0]], tailInit, Split(last, c));
    }
  }

  lemma Regroup3<T>(a: seq<T>, b: seq<T>, d: seq<T>)
    ensures a + (b + d) == (a + b) + d
  {
  }

  /** A character that is in no item and not in the separator is not in the joined text. */
  lemma {:induction false} JoinAvoids(items: seq<string>, sep: string, c: char)
    requires forall k :: 0 <= k < |items| ==> c !in items[k]
    requires c !in sep
    ensures c !in Join(items, sep)
    decreases |items|
  {
    if |items| > 1 {
      JoinAvoids(items[1..], sep, c);
    }
  }

  /** Index of the last `x` in `s`, or -1: the proofs use it to find the
      field after the last separator of a joined text. */
  function LastIndexOf<T(==)>(s: seq<T>, x: T): (i: int)
    ensures -1 <= i < |s|
    ensures i == -1 <==> x !in s
    ensures 0 <= i ==> s[i] == x && x !in s[i + 1..]
  {
    if |s| == 0 then -1
    else if s[|s| - 1] == x then |s| - 1
    else
      var j := LastIndexOf(s[..|s| - 1], x);
      if j >= 0 then
        assert s[j + 1..] == s[..|s| - 1][j + 1..] + [s[|s| - 1]];
        j
      else j
  }

  /** Any position holding `x` with no `x` before it is the one `IndexOf` finds. */
  lemma IndexOfUnique<T>(s: seq<T>, x: T, k: nat)
    requires k < |s| && s[k] == x && x !in s[..k]
    ensures IndexOf(s, x) == k
  {
  }

  /** Any position holding `x` with no `x` after it is the one `LastIndexOf` finds. */
  lemma LastIndexOfUnique<T>(s: seq<T>, x: T, k: nat)
    requires k < |s| && s[k] == x && x !in s[k + 1..]
    ensures LastIndexOf(s, x) == k
  {
  }

  /** The field after the last separator of a text is determined by the text. */
  lemma LastField(x1: string, t1: string, x2: string, t2: string, c: char)
    requires c !in t1 && c !in t2
    requires x1 + [c] + t1 == x2 + [c] + t2
    ensures t1 == t2
  {
    var s1 := x1 + [c] + t1;
    var s2 := x2 + [c] + t2;
    assert s1[|x1| + 1..] == t1;
    assert s2[|x2| + 1..] == t2;
    LastIndexOfUnique(s1, c, |x1|);
    LastIndexOfUnique(s2, c, |x2|);
  }

  /** The field between a known prefix and the next separator is determined by the text. */
  lemma FirstField(p: string, t1: string, x1: string, t2: string, x2: string, c: char)
    requires c !in t1 && c !in t2
    requires p + t1 + [c] + x1 == p + t2 + [c] + x2
    ensures t1 == t2
  {
    var q1 := t1 + [c] + x1;
    var q2 := t2 + [c] + x2;
    assert (p + t1 + [c] + x1)[|p|..] == q1;
    assert (p + t2 + [c] + x2)[|p|..] == q2;
    assert q1[..|t1|] == t1;
    assert q2[..|t2|] == t2;
    IndexOfUnique(q1, c, |t1|);
    IndexOfUnique(q2, c, |t2|);
  }

  // ---------------------------------------------------------------------
  // fmt integer verbs

  predicate IsDigit(ch: char, base: nat)
  {
    ('0' <= ch <= '9' && (ch as int) - ('0' as int) < base)
    || ('a' <= ch <= 'f' && (ch as int) - ('a' as int) + 10 < base)
  }

  function DigitChar(d: nat, base: nat): (ch: char)
    requires d < base <= 16
    ensures IsDigit(ch, base)
  {
    if d < 10 then ((('0' as int) + d) as char) else ((('a' as int) + d - 10) as char)
  }

  function DigitValue(ch: char, base: nat): (d: nat)
    requires base <= 16 && IsDigit(ch, base)
    ensures d < base && DigitChar(d, base) == ch
  {
    if '0' <= ch <= '9' then (ch as int) - ('0' as int) else (ch as int) - ('a' as int) + 10
  }

  lemma DivMod(n: nat, base: nat)
    requires 2 <= base
    ensures n == (n / base) * base + n % base
    ensures 0 <= n % base < base
    ensures n >= base ==> n / base < n
  {
  }

  /** The digits of `n` in `base`, lower-case letters above 9, no sign and
      no leading zeros: the rendering of `%d` (base 10), `%x` (16), `%o` (8). */
  function Digits(n: nat, base: nat): (s: string)
    requires 2 <= base <= 16
    ensures |s| >= 1
    ensures forall i :: 0 <= i < |s| ==> IsDigit(s[i], base)
    decreases n
  {
    if n < base then [DigitChar(n, base)]
    else
      DivMod(n, base);
      Digits(n / base, base) + [DigitChar(n % base, base)]
  }

  /** One more digit `d` after the value `v`. */
  function Shift(v: nat, base: nat, d: nat): nat
  {
    v * base + d
  }

  /** The number a run of digits denotes. */
  function Value(s: string, base: nat): nat
    requires 2 <= base <= 16
    requires forall i :: 0 <= i < |s| ==> IsDigit(s[i], base)
  {
    if |s| == 0 then 0
    else
      var init := s[..|s| - 1];
      assert forall i :: 0 <= i < |init| ==> init[i] == s[i];
      Shift(Value(init, base), base, DigitValue(s[|s| - 1], base))
  }

  /** Reading the digits back gives the number rendered. */
  lemma {:induction false} ValueOfDigits(n: nat, base: nat)
    requires 2 <= base <= 16
    ensures Value(Digits(n, base), base) == n
    decreases n
  {
    var s := Digits(n, base);
    if n < base {
      assert s[..0] == [];
    } else {
      DivMod(n, base);
      ValueOfDigits(n / base, base);
      assert s[..|s| - 1] == Digits(n / base, base);
      assert DigitValue(s[|s| - 1], base) == n % base;
    }
  }

  /** A non-empty run of digits, or nothing. */
  function ParseUnsigned(s: string, base: nat): (r: Option<nat>)
    requires 2 <= base <= 16
  {
    if |s| > 0 && forall i :: 0 <= i < |s| ==> IsDigit(s[i], base)
    then Some(Value(s, base))
    else None
  }

  /** `%d` of a signed integer: a minus sign before the digits of a negative one. */
  function Decimal(i: int): (s: string)
    ensures |s| >= 1
    ensures ' ' !in s && ')' !in s && ':' !in s && '/' !in s && '.' !in s && ',' !in s
  {
    if i < 0 then "-" + Digits(-i, 10) else Digits(i, 10)
  }

  /** `strconv.Atoi`-style reading of an optional minus sign and decimal digits. */
  function ParseDecimal(s: string): (r: Option<int>)
  {
    if |s| > 0 && s[0] == '-' then
      match ParseUnsigned(s[1..], 10)
      case Some(v) => Some(0 - v)
      case None => None
    else
      ParseUnsigned(s, 10)
  }

  /** `Decimal` renders every integer so that it can be read back. */
  lemma ParseDecimalOfDecimal(i: int)
    ensures ParseDecimal(Decimal(i)) == Some(i)
  {
    var s := Decimal(i);
    if i < 0 {
      var d := Digits(-i, 10);
      ParseUnsignedOfDigits(-i);
      assert s == "-" + d;
      assert s[0] == '-' && s[1..] == d;
      assert ParseDecimal(s) == Some(0 - (-i));
    } else {
      var d := Digits(i, 10);
      ParseUnsignedOfDigits(i);
      assert s == d && s[0] != '-';
    }
  }

  /** The digits of a number read back as that number, and never open with a sign. */
  lemma ParseUnsignedOfDigits(n: nat)
    ensures ParseUnsigned(Digits(n, 10), 10) == Some(n)
    ensures Digits(n, 10)[0] != '-'
  {
    var d := Digits(n, 10);
    ValueOfDigits(n, 10);
    assert IsDigit(d[0], 10);
  }

  /** Distinct integers render to distinct text. */
  lemma DecimalInjective(a: int, b: int)
    requires Decimal(a) == Decimal(b)
    ensures a == b
  {
    ParseDecimalOfDecimal(a);
    ParseDecimalOfDecimal(b);
  }
}
