/** The storage-key encoding of the update-log store: a key is a tuple of
    strings and numbers, written as one string whose lexicographic order the
    substrate's range scans follow.  Besides the codec itself this module
    proves the ordering facts that let the update log be modelled as a map
    keyed by (document name, clock). */
module KeyCodec {
  import opened Wrappers

  /** One component of a key tuple.  The numbers the store writes are
      document clocks, so they are non-negative integers. */
  datatype Part = Str(s: string) | Num(n: nat)

  type StorageKey = seq<Part>

  const Separator: char := '#'
  const Quote: char := '"'
  const Backslash: char := '\\'
  /** Numbers are left-padded with zeros to this many characters. */
  const PadWidth: nat := 9
  /** Upper bound of every update scan (`BINARY_BITS_32`). */
  const Bits32: nat := 0xFFFF_FFFF
  /** The first clock whose encoded update key does not sort below the key of
      clock `Bits32`; see UpdateScanBound. */
  const UpdateScanEnd: nat := 429496730

  function Pow10(k: nat): (r: nat)
    ensures r >= 1
  {
    if k == 0 then 1 else 10 * Pow10(k - 1)
  }

  // ---------------------------------------------------------------------------
  // Decimal digits

  predicate IsDigit(c: char) {
    '0' <= c <= '9'
  }

  predicate AllDigits(s: string) {
    forall i :: 0 <= i < |s| ==> IsDigit(s[i])
  }

  function DigitChar(d: nat): (c: char)
    requires d < 10
    ensures IsDigit(c)
  {
    ('0' as int + d) as char
  }

  function DigitValue(c: char): (d: nat)
    requires IsDigit(c)
    ensures d < 10 && DigitChar(d) == c
  {
    c as int - '0' as int
  }

  /** `${n}`: the shortest decimal form of `n`. */
  function Decimal(n: nat): (r: string)
    ensures 1 <= |r| && AllDigits(r)
  {
    if n < 10 then [DigitChar(n)] else Decimal(n / 10) + [DigitChar(n % 10)]
  }

  /** The `w` low-order decimal digits of `n`, zeros included. */
  function FixedDigits(n: nat, w: nat): (r: string)
    ensures |r| == w && AllDigits(r)
  {
    if w == 0 then [] else FixedDigits(n / 10, w - 1) + [DigitChar(n % 10)]
  }

  function Repeat(c: char, k: nat): (r: string)
    ensures |r| == k && forall i :: 0 <= i < k ==> r[i] == c
  {
    if k == 0 then [] else [c] + Repeat(c, k - 1)
  }

  function Zeros(k: nat): (r: string)
    ensures |r| == k && AllDigits(r)
  {
    Repeat('0', k)
  }

  /** `s.padStart(width, fill)`. */
  function PadStart(s: string, width: nat, fill: char): (r: string)
    ensures |r| == if |s| >= width then |s| else width
  {
    if |s| >= width then s else Repeat(fill, width - |s|) + s
  }

  /** The value of a string of decimal digits, as `parseInt` reads it. */
  function DigitsValue(ds: string): nat
    requires AllDigits(ds)
  {
    if ds == [] then 0 else DigitsValue(ds[..|ds| - 1]) * 10 + DigitValue(ds[|ds| - 1])
  }

  /** The longest prefix of `s` made of decimal digits. */
  function DigitPrefix(s: string): (r: string)
    ensures AllDigits(r) && |r| <= |s| && r == s[..|r|]
  {
    if s != [] && IsDigit(s[0]) then [s[0]] + DigitPrefix(s[1..]) else []
  }

  // ---------------------------------------------------------------------------
  // Array.join and String.split

  /** `parts.join([sep])`. */
  function Join(parts: seq<string>, sep: char): string {
    if parts == [] then ""
    else if |parts| == 1 then parts[0]
    else parts[0] + [sep] + Join(parts[1..], sep)
  }

  /** `s.split(sep)`: always at least one piece, none containing `sep`. */
  function Split(s: string, sep: char): (r: seq<string>)
    ensures |r| >= 1
  {
    if s == [] then [""]
    else if s[0] == sep then [""] + Split(s[1..], sep)
    else
      var rest := Split(s[1..], sep);
      [[s[0]] + rest[0]] + rest[1..]
  }

  predicate Free(s: string, c: char) {
    forall i :: 0 <= i < |s| ==> s[i] != c
  }

  // ---------------------------------------------------------------------------
  // The codec

  function EncodePart(p: Part): string {
    match p
    case Str(s) => [Quote] + s + [Quote]
    case Num(n) => PadStart(Decimal(n), PadWidth, '0')
  }

  function EncodeParts(k: StorageKey): (r: seq<string>)
    ensures |r| == |k|
  {
    seq(|k|, i requires 0 <= i < |k| => EncodePart(k[i]))
  }

  /** The string `keyEncoding.encode` builds for `k`. */
  function EncodeKey(k: StorageKey): string {
    Join(EncodeParts(k), Separator)
  }

  /** `keyEncoding.encode`: one encoded component per key part, pushed in
      order, then joined with `#`. */
  method Encode(k: StorageKey) returns (s: string)
    ensures s == EncodeKey(k)
  {
    var resultArr: seq<string> := [];
    for i := 0 to |k|
      invariant |resultArr| == i
      invariant forall j :: 0 <= j < i ==> resultArr[j] == EncodePart(k[j])
    {
      resultArr := resultArr + [EncodePart(k[i])];
    }
    assert resultArr == EncodeParts(k);
    s := Join(resultArr, Separator);
  }

  /** A character `JSON.parse` accepts unescaped inside a string literal. */
  predicate PlainJsonChar(c: char) {
    c != Quote && c != Backslash && c >= ' '
  }

  /** `JSON.parse(el)` for a quoted element; None is the SyntaxError it throws. */
  function ParseJsonString(el: string): Option<string> {
    if 2 <= |el| && el[0] == Quote && el[|el| - 1] == Quote
       && forall i :: 1 <= i < |el| - 1 ==> PlainJsonChar(el[i])
    then Some(el[1..|el| - 1])
    else None
  }

  /** `parseInt(el, 10)`; None is NaN. */
  function ParseInt(el: string): Option<nat> {
    var ds := DigitPrefix(el);
    if ds == [] then None else Some(DigitsValue(ds))
  }

  function DecodePart(el: string): Option<Part> {
    if |el| > 0 && el[0] == Quote then
      match ParseJsonString(el)
      case Some(s) => Some(Str(s))
      case None => None
    else
      match ParseInt(el)
      case Some(n) => Some(Num(n))
      case None => None
  }

  function DecodeAll(els: seq<string>): Option<StorageKey> {
    if els == [] then Some([])
    else
      match DecodePart(els[0])
      case None => None
      case Some(p) =>
        match DecodeAll(els[1..])
        case None => None
        case Some(rest) => Some([p] + rest)
  }

  /** `keyEncoding.decode`: split on `#`, then JSON-parse quoted pieces and
      parseInt the others.  None when a piece would throw or read as NaN. */
  function Decode(str: string): Option<StorageKey> {
    DecodeAll(Split(str, Separator))
  }

  /** A string component that survives the round trip: no separator, no
      quote, no backslash, no control character. */
  predicate WellFormedString(s: string) {
    forall i :: 0 <= i < |s| ==> s[i] != Separator && PlainJsonChar(s[i])
  }

  predicate WellFormedKey(k: StorageKey) {
    |k| >= 1 && forall i :: 0 <= i < |k| ==> k[i].Str? ==> WellFormedString(k[i].s)
  }

  // ---------------------------------------------------------------------------
  // Digit lemmas

  lemma {:induction false} DigitsValueDecimal(n: nat)
    ensures DigitsValue(Decimal(n)) == n
  {
    if n >= 10 {
      var d := Decimal(n / 10);
      assert (d + [DigitChar(n % 10)])[..|d|] == d;
      DigitsValueDecimal(n / 10);
    }
  }

  lemma {:induction false} DigitsValueZeros(k: nat)
    ensures DigitsValue(Zeros(k)) == 0
  {
    if k > 0 {
      ZerosSnoc(k - 1);
      assert Zeros(k)[..k - 1] == Zeros(k - 1);
      DigitsValueZeros(k - 1);
    }
  }

  lemma {:induction false} ZerosSnoc(k: nat)
    ensures Zeros(k + 1) == Zeros(k) + ['0']
  {
    if k > 0 {
      ZerosSnoc(k - 1);
    }
  }

  lemma {:induction false} DigitsValueLeadingZeros(k: nat, ds: string)
    requires AllDigits(ds)
    ensures AllDigits(Zeros(k) + ds) && DigitsValue(Zeros(k) + ds) == DigitsValue(ds)
  {
    var s := Zeros(k) + ds;
    if ds == [] {
      assert s == Zeros(k);
      DigitsValueZeros(k);
    } else {
      var init := ds[..|ds| - 1];
      assert s[..|s| - 1] == Zeros(k) + init;
      DigitsValueLeadingZeros(k, init);
    }
  }

  lemma {:induction false} DigitPrefixOfDigits(s: string)
    requires AllDigits(s)
    ensures DigitPrefix(s) == s
  {
    if s != [] {
      DigitPrefixOfDigits(s[1..]);
    }
  }

  lemma {:induction false} FixedDigitsZero(w: nat)
    ensures FixedDigits(0, w) == Zeros(w)
  {
    if w > 0 {
      FixedDigitsZero(w - 1);
      ZerosSnoc(w - 1);
    }
  }

  /** Padding the shortest form to `w` digits gives the `w` low-order digits,
      for every number that fits in `w` digits. */
  lemma {:induction false} PadDecimal(n: nat, w: nat)
    requires 1 <= w && n < Pow10(w)
    ensures |Decimal(n)| <= w
    ensures PadStart(Decimal(n), w, '0') == FixedDigits(n, w)
  {
    if n < 10 {
      FixedDigitsZero(w - 1);
      assert PadStart(Decimal(n), w, '0') == Zeros(w - 1) + [DigitChar(n)];
    } else {
      assert w >= 2;
      PadDecimal(n / 10, w - 1);
      var d := Decimal(n / 10);
      var c := DigitChar(n % 10);
      assert Decimal(n) == d + [c];
      assert PadStart(d, w - 1, '0') == Zeros(w - 1 - |d|) + d;
      calc {
        PadStart(d + [c], w, '0');
        Zeros(w - 1 - |d|) + (d + [c]);
        (Zeros(w - 1 - |d|) + d) + [c];
        FixedDigits(n / 10, w - 1) + [c];
      }
    }
  }

  // ---------------------------------------------------------------------------
  // Lexicographic order of strings (the substrate's key order)

  /** `a < b` on strings: code-point lexicographic order, a proper prefix first. */
  predicate LexLess(a: string, b: string)
    decreases |a|
  {
    if a == [] then b != []
    else if b == [] then false
    else a[0] < b[0] || (a[0] == b[0] && LexLess(a[1..], b[1..]))
  }

  /** Membership in a scan range `[gte, lt)`. */
  predicate InKeyRange(k: string, gte: string, lt: string) {
    !LexLess(k, gte) && LexLess(k, lt)
  }

  lemma {:induction false} LexLessIrreflexive(a: string)
    ensures !LexLess(a, a)
  {
    if a != [] {
      LexLessIrreflexive(a[1..]);
    }
  }

  lemma {:induction false} LexLessAsymmetric(a: string, b: string)
    ensures !(LexLess(a, b) && LexLess(b, a))
  {
    if a != [] && b != [] && a[0] == b[0] {
      LexLessAsymmetric(a[1..], b[1..]);
    }
  }

  lemma {:induction false} LexLessCommonPrefix(p: string, a: string, b: string)
    ensures LexLess(p + a, p + b) <==> LexLess(a, b)
  {
    if p != [] {
      assert (p + a)[0] == p[0] == (p + b)[0];
      assert (p + a)[1..] == p[1..] + a;
      assert (p + b)[1..] == p[1..] + b;
      LexLessCommonPrefix(p[1..], a, b);
    } else {
      assert p + a == a && p + b == b;
    }
  }

  /** Two strings of equal length extended by one character each: the last
      character decides only when the rest is equal. */
  lemma {:induction false} LexLessAppend(x: string, y: string, d: char, e: char)
    requires |x| == |y|
    ensures LexLess(x + [d], y + [e]) <==> LexLess(x, y) || (x == y && d < e)
  {
    if x != [] {
      assert (x + [d])[1..] == x[1..] + [d];
      assert (y + [e])[1..] == y[1..] + [e];
      LexLessAppend(x[1..], y[1..], d, e);
      if x[0] == y[0] && x[1..] == y[1..] {
        assert x == [x[0]] + x[1..] && y == [y[0]] + y[1..];
      }
    }
  }

  /** A string against a longer one with one extra character: less exactly
      when it is less than or equal to the other's first part. */
  lemma {:induction false} LexLessLonger(x: string, y: string, e: char)
    requires |x| == |y|
    ensures LexLess(x, y + [e]) <==> LexLess(x, y) || x == y
  {
    if x != [] {
      assert (y + [e])[1..] == y[1..] + [e];
      LexLessLonger(x[1..], y[1..], e);
      if x[0] == y[0] && x[1..] == y[1..] {
        assert x == [x[0]] + x[1..] && y == [y[0]] + y[1..];
      }
    }
  }

  /** Fixed-width digit strings are ordered as the numbers they denote. */
  lemma {:induction false} FixedDigitsOrder(a: nat, b: nat, w: nat)
    requires a < Pow10(w) && b < Pow10(w)
    decreases w
    ensures LexLess(FixedDigits(a, w), FixedDigits(b, w)) <==> a < b
  {
    if w == 0 {
    } else {
      var fa, fb := FixedDigits(a / 10, w - 1), FixedDigits(b / 10, w - 1);
      FixedDigitsOrder(a / 10, b / 10, w - 1);
      FixedDigitsOrder(b / 10, a / 10, w - 1);
      LexLessAppend(fa, fb, DigitChar(a % 10), DigitChar(b % 10));
      if fa == fb {
        LexLessIrreflexive(fa);
      }
      assert a / 10 == b / 10 ==> fa == fb;
      assert DigitChar(a % 10) < DigitChar(b % 10) <==> a % 10 < b % 10;
    }
  }

  lemma {:induction false} FixedDigitsInjective(a: nat, b: nat, w: nat)
    requires a < Pow10(w) && b < Pow10(w)
    ensures FixedDigits(a, w) == FixedDigits(b, w) <==> a == b
  {
    if FixedDigits(a, w) == FixedDigits(b, w) {
      LexLessIrreflexive(FixedDigits(a, w));
      FixedDigitsOrder(a, b, w);
      FixedDigitsOrder(b, a, w);
    }
  }

  /** If `k` lies in `[lo, hi)` and both bounds start with `p`, so does `k`. */
  lemma {:induction false} SandwichPrefix(p: string, lo: string, hi: string, k: string)
    requires |p| <= |lo| && |p| <= |hi| && lo[..|p|] == p && hi[..|p|] == p
    requires InKeyRange(k, lo, hi)
    ensures |p| <= |k| && k[..|p|] == p
  {
    if p != [] {
      assert lo != [] && hi != [];
      assert k != [];
      assert k[0] == p[0];
      assert lo[1..][..|p| - 1] == p[1..];
      assert hi[1..][..|p| - 1] == p[1..];
      SandwichPrefix(p[1..], lo[1..], hi[1..], k[1..]);
      assert k[..|p|] == [k[0]] + k[1..][..|p| - 1];
    }
  }

  // ---------------------------------------------------------------------------
  // Split and Join

  lemma {:induction false} SplitPrefix(a: string, s: string, sep: char)
    requires Free(a, sep)
    ensures Split(a + s, sep) == [a + Split(s, sep)[0]] + Split(s, sep)[1..]
  {
    var t := Split(s, sep);
    if a != [] {
      assert (a + s)[0] == a[0] && (a + s)[1..] == a[1..] + s;
      SplitPrefix(a[1..], s, sep);
      var rest := Split(a[1..] + s, sep);
      assert rest[0] == a[1..] + t[0] && rest[1..] == t[1..];
      assert Split(a + s, sep) == [[a[0]] + rest[0]] + rest[1..];
      assert [a[0]] + (a[1..] + t[0]) == a + t[0];
    } else {
      assert a + s == s && a + t[0] == t[0];
      assert t == [t[0]] + t[1..];
    }
  }

  lemma {:induction false} SplitJoin(parts: seq<string>, sep: char)
    requires |parts| >= 1
    requires forall i :: 0 <= i < |parts| ==> Free(parts[i], sep)
    ensures Split(Join(parts, sep), sep) == parts
  {
    if |parts| == 1 {
      SplitPrefix(parts[0], "", sep);
      assert parts[0] + "" == parts[0];
    } else {
      var rest := Join(parts[1..], sep);
      assert Join(parts, sep) == parts[0] + ([sep] + rest);
      SplitPrefix(parts[0], [sep] + rest, sep);
      assert ([sep] + rest)[1..] == rest;
      SplitJoin(parts[1..], sep);
      var t := Split([sep] + rest, sep);
      assert t == [""] + parts[1..];
      assert t[0] == "" && t[1..] == parts[1..];
      assert parts[0] + t[0] == parts[0];
      assert parts == [parts[0]] + parts[1..];
    }
  }

  // ---------------------------------------------------------------------------
  // The codec's promises

  lemma EncodePartFree(p: Part)
    requires p.Str? ==> WellFormedString(p.s)
    ensures Free(EncodePart(p), Separator)
  {
    if p.Num? {
      var r := EncodePart(p);
      forall i | 0 <= i < |r| ensures r[i] != Separator {
        var d := Decimal(p.n);
        if i >= |r| - |d| {
          assert r[i] == d[i - (|r| - |d|)];
        }
      }
    }
  }

  /** `encode` writes one piece per component, separated by `#`: a string
      component between quotes, a number as its decimal form left-padded with
      zeros to at least nine characters. */
  lemma {:induction false} EncodeFormat(k: StorageKey)
    requires WellFormedKey(k)
    ensures |Split(EncodeKey(k), Separator)| == |k|
    ensures forall i :: 0 <= i < |k| && k[i].Str? ==>
              Split(EncodeKey(k), Separator)[i] == [Quote] + k[i].s + [Quote]
    ensures forall i :: 0 <= i < |k| && k[i].Num? ==>
              var piece, d := Split(EncodeKey(k), Separator)[i], Decimal(k[i].n);
              |piece| == (if |d| >= PadWidth then |d| else PadWidth)
              && piece[|piece| - |d|..] == d
              && forall j :: 0 <= j < |piece| - |d| ==> piece[j] == '0'
  {
    forall i | 0 <= i < |k| ensures Free(EncodeParts(k)[i], Separator) {
      EncodePartFree(k[i]);
    }
    SplitJoin(EncodeParts(k), Separator);
  }

  lemma DecodeEncodePart(p: Part)
    requires p.Str? ==> WellFormedString(p.s)
    ensures DecodePart(EncodePart(p)) == Some(p)
  {
    match p
    case Str(s) =>
      var el := [Quote] + s + [Quote];
      assert el[1..|el| - 1] == s;
      assert forall i :: 1 <= i < |el| - 1 ==> el[i] == s[i - 1];
    case Num(n) =>
      var d := Decimal(n);
      var el := EncodePart(p);
      assert el == Zeros(|el| - |d|) + d;
      DigitsValueLeadingZeros(|el| - |d|, d);
      DigitPrefixOfDigits(el);
      DigitsValueDecimal(n);
  }

  lemma {:induction false} DecodeAllEncodeParts(k: StorageKey)
    requires forall i :: 0 <= i < |k| ==> k[i].Str? ==> WellFormedString(k[i].s)
    ensures DecodeAll(EncodeParts(k)) == Some(k)
  {
    if k != [] {
      var ps, rest := EncodeParts(k), k[1..];
      DecodeEncodePart(k[0]);
      assert ps[0] == EncodePart(k[0]);
      assert ps[1..] == EncodeParts(rest);
      assert forall i :: 0 <= i < |rest| ==> rest[i] == k[i + 1];
      DecodeAllEncodeParts(rest);
      assert k == [k[0]] + rest;
    }
  }

  /** `decode(encode(k)) == k` for every non-empty key whose strings contain
      no `#`, quote, backslash or control character. */
  lemma {:induction false} DecodeEncode(k: StorageKey)
    requires WellFormedKey(k)
    ensures Decode(EncodeKey(k)) == Some(k)
  {
    forall i | 0 <= i < |k| ensures Free(EncodeParts(k)[i], Separator) {
      EncodePartFree(k[i]);
    }
    SplitJoin(EncodeParts(k), Separator);
    DecodeAllEncodeParts(k);
  }

  // ---------------------------------------------------------------------------
  // The keys of the update log

  /** `createDocumentUpdateKey`. */
  function DocumentUpdateKey(docName: string, clock: nat): StorageKey {
    [Str("v1"), Str(docName), Str("update"), Num(clock)]
  }

  /** `createDocumentStateVectorKey`. */
  function DocumentStateVectorKey(docName: string): StorageKey {
    [Str("v1_sv"), Str(docName)]
  }

  /** Everything of an encoded update key in front of its clock:
      `"v1"#"<docName>"#"update"#`. */
  function UpdatePrefix(docName: string): string {
    UpdateHead + docName + UpdateTail
  }

  const UpdateHead: string := [Quote, 'v', '1', Quote, Separator, Quote]
  const UpdateTail: string := [Quote, Separator, Quote, 'u', 'p', 'd', 'a', 't', 'e', Quote, Separator]

  lemma EncodeUpdateKey(docName: string, clock: nat)
    ensures EncodeKey(DocumentUpdateKey(docName, clock))
            == UpdatePrefix(docName) + EncodePart(Num(clock))
  {
    var d := EncodePart(Num(clock));
    var ps := EncodeParts(DocumentUpdateKey(docName, clock));
    var h := [Quote] + "v1" + [Quote];
    var t := [Quote] + "update" + [Quote];
    assert ps == [h, [Quote] + docName + [Quote], t, d];
    var last := t + [Separator] + d;
    assert Join(ps[2..], Separator) == last by {
      assert ps[2..][1..] == ps[3..] == [d];
    }
    var mid := [Quote] + docName + [Quote] + [Separator] + last;
    assert Join(ps[1..], Separator) == mid by {
      assert ps[1..][1..] == ps[2..];
    }
    assert EncodeKey(DocumentUpdateKey(docName, clock)) == h + [Separator] + mid;
    assert UpdateHead == h + [Separator] + [Quote];
    assert UpdateTail == [Quote] + [Separator] + t + [Separator];
  }

  lemma EncodeClockFixed(clock: nat)
    requires clock < Pow10(PadWidth)
    ensures EncodePart(Num(clock)) == FixedDigits(clock, PadWidth)
  {
    PadDecimal(clock, PadWidth);
  }

  /** Update keys of one document sort by clock, for every clock that fits
      the nine-digit field. */
  lemma UpdateKeyOrder(docName: string, a: nat, b: nat)
    requires a < Pow10(PadWidth) && b < Pow10(PadWidth)
    ensures LexLess(EncodeKey(DocumentUpdateKey(docName, a)), EncodeKey(DocumentUpdateKey(docName, b)))
            <==> a < b
  {
    EncodeUpdateKey(docName, a);
    EncodeUpdateKey(docName, b);
    EncodeClockFixed(a);
    EncodeClockFixed(b);
    LexLessCommonPrefix(UpdatePrefix(docName), FixedDigits(a, PadWidth), FixedDigits(b, PadWidth));
    FixedDigitsOrder(a, b, PadWidth);
  }

  /** The range `[key(doc, from), key(doc, to))` of a clear holds exactly the
      update keys of `doc` with `from <= clock < to`. */
  lemma UpdateKeyInClearRange(docName: string, from: nat, to: nat, clock: nat)
    requires from < Pow10(PadWidth) && to < Pow10(PadWidth) && clock < Pow10(PadWidth)
    ensures InKeyRange(EncodeKey(DocumentUpdateKey(docName, clock)),
                       EncodeKey(DocumentUpdateKey(docName, from)),
                       EncodeKey(DocumentUpdateKey(docName, to)))
            <==> from <= clock < to
  {
    UpdateKeyOrder(docName, clock, from);
    UpdateKeyOrder(docName, clock, to);
  }

  lemma DecimalBits32()
    ensures Decimal(Bits32) == FixedDigits(UpdateScanEnd - 1, PadWidth) + ['5']
  {
    var n := UpdateScanEnd - 1;
    assert Bits32 / 10 == n && Bits32 % 10 == 5;
    assert Decimal(Bits32) == Decimal(n) + ['5'];
    assert Pow10(PadWidth) == 1000000000;
    PadDecimal(n, PadWidth);
    DecimalAtLeast(n, 8);
  }

  lemma {:induction false} DecimalAtLeast(n: nat, k: nat)
    requires Pow10(k) <= n
    ensures |Decimal(n)| >= k + 1
  {
    if k > 0 {
      DecimalAtLeast(n / 10, k - 1);
    }
  }

  /** An update scan runs from the key of clock 0 to the key of clock
      0xFFFFFFFF, which has ten digits.  Among nine-digit clocks it therefore
      holds exactly those below UpdateScanEnd (429496730), not every clock up
      to 0xFFFFFFFF. */
  lemma UpdateScanBound(docName: string, clock: nat)
    requires clock < Pow10(PadWidth)
    ensures InKeyRange(EncodeKey(DocumentUpdateKey(docName, clock)),
                       EncodeKey(DocumentUpdateKey(docName, 0)),
                       EncodeKey(DocumentUpdateKey(docName, Bits32)))
            <==> clock < UpdateScanEnd
  {
    var p := UpdatePrefix(docName);
    var top := FixedDigits(UpdateScanEnd - 1, PadWidth);
    assert Pow10(PadWidth) == 1000000000;
    EncodeUpdateKey(docName, clock);
    EncodeUpdateKey(docName, 0);
    EncodeUpdateKey(docName, Bits32);
    EncodeClockFixed(clock);
    DecimalBits32();
    PadDecimal(Bits32, 10);
    assert EncodePart(Num(Bits32)) == top + ['5'];
    // lower bound
    UpdateKeyOrder(docName, clock, 0);
    // upper bound
    LexLessCommonPrefix(p, FixedDigits(clock, PadWidth), top + ['5']);
    LexLessLonger(FixedDigits(clock, PadWidth), top, '5');
    FixedDigitsOrder(clock, UpdateScanEnd - 1, PadWidth);
    FixedDigitsInjective(clock, UpdateScanEnd - 1, PadWidth);
  }

  /** A quote-free name followed by a piece starting with a quote is
      determined by any prefix of that shape. */
  lemma QuotedNameDetermined(x: string, y: string, t: string, r: string)
    requires Free(x, Quote) && Free(y, Quote) && |t| > 0 && t[0] == Quote
    requires |y + t| <= |x + t + r| && (x + t + r)[..|y + t|] == y + t
    ensures x == y
  {
    var a := x + t + r;
    var m := if |x| < |y| then |x| else |y|;
    assert a[m] == (y + t)[m];
    if |x| == |y| {
      assert x == a[..|x|] == (y + t)[..|y|] == y;
    }
  }

  /** A string that starts like an update key of `docName` names that document. */
  lemma UpdateHeadDeterminesName(docName: string, other: string, rest: string)
    requires Free(docName, Quote) && Free(other, Quote)
    requires var k, p := UpdateHead + (other + UpdateTail + rest), UpdatePrefix(docName);
             |p| <= |k| && k[..|p|] == p
    ensures other == docName
  {
    var k, p := UpdateHead + (other + UpdateTail + rest), UpdatePrefix(docName);
    var n := |UpdateHead|;
    assert p == UpdateHead + (docName + UpdateTail);
    assert k[n..][..|p| - n] == k[..|p|][n..] == docName + UpdateTail;
    assert k[n..] == other + UpdateTail + rest;
    QuotedNameDetermined(other, docName, UpdateTail, rest);
  }

  lemma UpdateKeyLayout(docName: string, clock: nat)
    ensures var k, p := EncodeKey(DocumentUpdateKey(docName, clock)), UpdatePrefix(docName);
            && |p| <= |k| && k[..|p|] == p
            && k == UpdateHead + (docName + UpdateTail + EncodePart(Num(clock)))
  {
    var p, e := UpdatePrefix(docName), EncodePart(Num(clock));
    EncodeUpdateKey(docName, clock);
    assert (p + e)[..|p|] == p;
    assert p + e == UpdateHead + (docName + UpdateTail + e);
  }

  /** Within the update scan of a document whose name has no quote, every
      update key belongs to that same document. */
  lemma UpdateScanIsPerDocument(docName: string, other: string, clock: nat)
    requires Free(docName, Quote) && Free(other, Quote)
    requires InKeyRange(EncodeKey(DocumentUpdateKey(other, clock)),
                        EncodeKey(DocumentUpdateKey(docName, 0)),
                        EncodeKey(DocumentUpdateKey(docName, Bits32)))
    ensures other == docName
  {
    UpdateKeyLayout(docName, 0);
    UpdateKeyLayout(docName, Bits32);
    UpdateKeyLayout(other, clock);
    SandwichPrefix(UpdatePrefix(docName), EncodeKey(DocumentUpdateKey(docName, 0)),
                   EncodeKey(DocumentUpdateKey(docName, Bits32)), EncodeKey(DocumentUpdateKey(other, clock)));
    UpdateHeadDeterminesName(docName, other, EncodePart(Num(clock)));
  }

  /** Past a common prefix, the first differing character decides the order. */
  lemma {:induction false} LexLessFirstDifference(a: string, b: string, i: nat)
    requires i < |a| && i < |b| && a[..i] == b[..i] && a[i] != b[i]
    ensures LexLess(a, b) <==> a[i] < b[i]
  {
    if i > 0 {
      assert a[1..][..i - 1] == a[..i][1..] == b[..i][1..] == b[1..][..i - 1];
      LexLessFirstDifference(a[1..], b[1..], i - 1);
      assert a[0] == a[..i][0] == b[..i][0] == b[0];
    }
  }

  lemma StateVectorKeyShape(other: string)
    ensures var sv := EncodeKey(DocumentStateVectorKey(other));
            4 <= |sv| && sv[..3] == [Quote, 'v', '1'] && sv[3] == '_'
  {
    var ps := EncodeParts(DocumentStateVectorKey(other));
    assert ps[0] == [Quote, 'v', '1', '_', 's', 'v', Quote];
    assert EncodeKey(DocumentStateVectorKey(other)) == ps[0] + [Separator] + Join(ps[1..], Separator);
  }

  lemma UpdateKeyShape(docName: string, clock: nat)
    ensures var k := EncodeKey(DocumentUpdateKey(docName, clock));
            4 <= |k| && k[..3] == [Quote, 'v', '1'] && k[3] == Quote
  {
    EncodeUpdateKey(docName, clock);
    var k := EncodeKey(DocumentUpdateKey(docName, clock));
    assert k == UpdateHead + (docName + UpdateTail + EncodePart(Num(clock)));
  }

  /** The state-vector record of any document lies outside every update scan. */
  lemma StateVectorKeyOutsideUpdateScan(docName: string, other: string)
    ensures !InKeyRange(EncodeKey(DocumentStateVectorKey(other)),
                        EncodeKey(DocumentUpdateKey(docName, 0)),
                        EncodeKey(DocumentUpdateKey(docName, Bits32)))
  {
    var sv := EncodeKey(DocumentStateVectorKey(other));
    var hi := EncodeKey(DocumentUpdateKey(docName, Bits32));
    StateVectorKeyShape(other);
    UpdateKeyShape(docName, Bits32);
    LexLessFirstDifference(sv, hi, 3);
  }
}
