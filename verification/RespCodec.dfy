/** The RESP2 wire format as the Redis client reads and writes it: commands are
    arrays of bulk strings, replies are lines or length-prefixed payloads. */
module RespCodec {

  type Byte = x: int | 0 <= x < 256
  type Bytes = seq<Byte>

  newtype Int64 = x: int | -0x8000_0000_0000_0000 <= x < 0x8000_0000_0000_0000

  const LF: Byte := 10
  const CR: Byte := 13
  const DOLLAR: Byte := 36
  const STAR: Byte := 42
  const PLUS: Byte := 43
  const MINUS: Byte := 45
  const ZERO: Byte := 48
  const NINE: Byte := 57
  const COLON: Byte := 58

  const CRLF: Bytes := [CR, LF]

  const MAX_INT64: int := 0x7FFF_FFFF_FFFF_FFFF
  const MAX_BULK: int := 0x2000_0000
  const MAX_LINE: int := 0x1_0000

  datatype Fault =
    | EmptyInteger | NoDigits | InvalidDigit | Overflow
    | Io | LineTooLong | EmptyLine | BulkRange | BulkNotTerminated | UnexpectedType

  lemma Regroup<T>(a: seq<T>, b: seq<T>, c: seq<T>)
    ensures (a + b) + c == a + (b + c)
  {
  }

  lemma ConsTail<T>(x: T, s: seq<T>)
    ensures ([x] + s)[0] == x && ([x] + s)[1..] == s
  {
  }

  lemma TakePast<T>(a: seq<T>, b: seq<T>, c: nat)
    requires |a| <= c <= |a| + |b|
    ensures (a + b)[..c] == a + b[..c - |a|]
  {
  }

  lemma SliceSplit<T>(s: seq<T>, j: nat, k: nat)
    requires j <= k <= |s|
    ensures s[j..][..k - j] == s[j..k] && s[..j] + s[j..k] == s[..k]
  {
  }

  /** Dropping the last and the first element, in either order. */
  lemma SliceBothEnds<T>(s: seq<T>)
    requires |s| >= 2
    ensures s[..|s| - 1][0] == s[0] && s[1..][|s| - 2] == s[|s| - 1]
    ensures s[..|s| - 1][1..] == s[1..][..|s| - 2]
  {
  }

  lemma SameHeadAndTail<T>(a: seq<T>, b: seq<T>)
    requires a != [] && b != [] && a[0] == b[0] && a[1..] == b[1..]
    ensures a == b
  {
    assert a == [a[0]] + a[1..] && b == [b[0]] + b[1..];
  }

  // ---------------------------------------------------------------------------
  // Integers
  // ---------------------------------------------------------------------------

  predicate IsDigit(b: Byte) { ZERO <= b <= NINE }

  predicate AllDigits(ds: Bytes) { forall i | 0 <= i < |ds| :: IsDigit(ds[i]) }

  /** The number a sequence of digits denotes. */
  function DecimalValue(ds: Bytes): nat
    requires AllDigits(ds)
  {
    if ds == [] then 0 else DecimalValue(ds[..|ds| - 1]) * 10 + (ds[|ds| - 1] - ZERO)
  }

  /** The decimal digits of a number, without leading zeros. */
  function Digits(n: nat): (ds: Bytes)
    ensures ds != [] && AllDigits(ds) && DecimalValue(ds) == n
  {
    if n < 10 then [ZERO + n] else
    var front := Digits(n / 10);
    assert (front + [ZERO + n % 10])[..|front|] == front;
    front + [ZERO + n % 10]
  }

  function FormatInt(n: int): Bytes {
    if n < 0 then [MINUS] + Digits(-n) else Digits(n)
  }

  function SignLen(b: Bytes): nat {
    if b != [] && (b[0] == MINUS || b[0] == PLUS) then 1 else 0
  }

  /** An optional sign and at least one digit, with a magnitude below 2^63. */
  ghost predicate DenotesInt(b: Bytes) {
    var ds := b[SignLen(b)..];
    ds != [] && AllDigits(ds) && DecimalValue(ds) <= MAX_INT64
  }

  ghost function DenotedInt(b: Bytes): int
    requires DenotesInt(b)
  {
    var magnitude: int := DecimalValue(b[SignLen(b)..]);
    if b[0] == MINUS then -magnitude else magnitude
  }

  datatype IntResult = IntOk(n: int) | IntErr(fault: Fault)

  /** Reads digits from position i on, given that those before i are good. */
  function ScanDigits(ds: Bytes, i: nat): IntResult
    requires i <= |ds| && AllDigits(ds[..i])
    decreases |ds| - i
  {
    if i == |ds| then
      assert ds[..i] == ds;
      IntOk(DecimalValue(ds))
    else if !IsDigit(ds[i]) then IntErr(InvalidDigit)
    else
      assert ds[..i + 1] == ds[..i] + [ds[i]];
      if DecimalValue(ds[..i + 1]) > MAX_INT64 then IntErr(Overflow) else ScanDigits(ds, i + 1)
  }

  function ParsedInt(b: Bytes): IntResult {
    if b == [] then IntErr(EmptyInteger)
    else if |b| == SignLen(b) then IntErr(NoDigits)
    else match ScanDigits(b[SignLen(b)..], 0)
      case IntErr(f) => IntErr(f)
      case IntOk(n) => IntOk(if b[0] == MINUS then -n else n)
  }

  lemma PrefixValue(ds: Bytes, i: nat)
    requires i < |ds| && AllDigits(ds[..i + 1])
    ensures AllDigits(ds[..i])
    ensures DecimalValue(ds[..i + 1]) == DecimalValue(ds[..i]) * 10 + (ds[i] - ZERO)
  {
    assert ds[..i + 1][..i] == ds[..i];
    assert forall k | 0 <= k < i :: ds[..i][k] == ds[..i + 1][k];
  }

  lemma ScanStep(ds: Bytes, k: nat)
    requires k < |ds| && AllDigits(ds[..k])
    ensures !IsDigit(ds[k]) ==> ScanDigits(ds, k) == IntErr(InvalidDigit)
    ensures IsDigit(ds[k]) ==>
      && AllDigits(ds[..k + 1])
      && DecimalValue(ds[..k + 1]) == DecimalValue(ds[..k]) * 10 + (ds[k] - ZERO)
      && ScanDigits(ds, k) == if DecimalValue(ds[..k + 1]) > MAX_INT64 then IntErr(Overflow) else ScanDigits(ds, k + 1)
  {
    if IsDigit(ds[k]) {
      assert ds[..k + 1] == ds[..k] + [ds[k]];
      PrefixValue(ds, k);
    }
  }

  /** parseInt, in 64-bit arithmetic: the guard keeps every intermediate value in range. */
  method ParseInt(b: Bytes) returns (r: IntResult)
    ensures r == ParsedInt(b)
  {
    if |b| == 0 {
      return IntErr(EmptyInteger);
    }
    var n: Int64, sign: Int64 := 0, 1;
    var start := 0;
    if b[0] == MINUS {
      sign, start := -1, 1;
    } else if b[0] == PLUS {
      start := 1;
    }
    if start == |b| {
      return IntErr(NoDigits);
    }
    ghost var ds := b[start..];
    var i := start;
    while i < |b|
      invariant start <= i <= |b|
      invariant AllDigits(ds[..i - start])
      invariant 0 <= n && n as int == DecimalValue(ds[..i - start]) <= MAX_INT64
      invariant ScanDigits(ds, 0) == ScanDigits(ds, i - start)
    {
      ScanStep(ds, i - start);
      if b[i] < ZERO || b[i] > NINE {
        return IntErr(InvalidDigit);
      }
      var d := (b[i] - ZERO) as Int64;
      if n > (0x7FFF_FFFF_FFFF_FFFF - d) / 10 {
        return IntErr(Overflow);
      }
      n := n * 10 + d;
      i := i + 1;
    }
    assert ds[..i - start] == ds;
    return IntOk((n * sign) as int);
  }

  lemma {:induction false} PrefixSmaller(ds: Bytes, i: nat)
    requires i <= |ds| && AllDigits(ds)
    ensures AllDigits(ds[..i]) && DecimalValue(ds[..i]) <= DecimalValue(ds)
    decreases |ds| - i
  {
    if i == |ds| {
      assert ds[..i] == ds;
    } else {
      PrefixSmaller(ds, i + 1);
      PrefixValue(ds, i);
    }
  }

  lemma {:induction false} ScanDigitsExact(ds: Bytes, i: nat)
    requires i <= |ds| && AllDigits(ds[..i]) && DecimalValue(ds[..i]) <= MAX_INT64
    ensures ScanDigits(ds, i).IntOk? <==> AllDigits(ds) && DecimalValue(ds) <= MAX_INT64
    ensures ScanDigits(ds, i).IntOk? ==> ScanDigits(ds, i).n == DecimalValue(ds)
    decreases |ds| - i
  {
    if i == |ds| {
      assert ds[..i] == ds;
    } else if IsDigit(ds[i]) {
      assert ds[..i + 1] == ds[..i] + [ds[i]];
      if DecimalValue(ds[..i + 1]) <= MAX_INT64 {
        ScanDigitsExact(ds, i + 1);
      } else if AllDigits(ds) {
        PrefixSmaller(ds, i + 1);
      }
    }
  }

  /** parseInt succeeds exactly on a signed decimal below 2^63 in magnitude, and
      then returns the number denoted. */
  lemma {:induction false} ParseIntExact(b: Bytes)
    ensures ParsedInt(b).IntOk? <==> DenotesInt(b)
    ensures DenotesInt(b) ==> ParsedInt(b) == IntOk(DenotedInt(b))
  {
    var ds := b[SignLen(b)..];
    assert ds[..0] == [];
    ScanDigitsExact(ds, 0);
  }

  /** Some leading digits already denote a number that is too large. */
  ghost predicate TooLarge(ds: Bytes) {
    exists i | 0 <= i <= |ds| :: AllDigits(ds[..i]) && DecimalValue(ds[..i]) > MAX_INT64
  }

  lemma {:induction false} ScanFaults(ds: Bytes, i: nat)
    requires i <= |ds| && AllDigits(ds[..i]) && DecimalValue(ds[..i]) <= MAX_INT64
    requires forall j | 0 <= j <= i :: AllDigits(ds[..j]) && DecimalValue(ds[..j]) <= MAX_INT64
    ensures ScanDigits(ds, i) == IntErr(Overflow) <==> TooLarge(ds)
    ensures ScanDigits(ds, i) == IntErr(InvalidDigit) <==> !AllDigits(ds) && !TooLarge(ds)
    ensures ScanDigits(ds, i).IntErr? ==> ScanDigits(ds, i).fault in {Overflow, InvalidDigit}
    decreases |ds| - i
  {
    if i == |ds| {
      assert ds[..i] == ds;
    } else {
      ScanStep(ds, i);
      if !IsDigit(ds[i]) {
        forall j | i < j <= |ds|
          ensures !AllDigits(ds[..j])
        {
          assert ds[..j][i] == ds[i];
        }
      } else if DecimalValue(ds[..i + 1]) <= MAX_INT64 {
        ScanFaults(ds, i + 1);
      } else {
        assert TooLarge(ds);
      }
    }
  }

  /** Which error parseInt reports: nothing at all, only a sign, leading digits that
      denote too large a number, or else a byte that is not a digit. */
  lemma {:induction false} ParseFaultsExactly(b: Bytes)
    ensures
      var ds := b[SignLen(b)..];
      && (ParsedInt(b) == IntErr(EmptyInteger) <==> b == [])
      && (ParsedInt(b) == IntErr(NoDigits) <==> b != [] && ds == [])
      && (ParsedInt(b) == IntErr(Overflow) <==> ds != [] && TooLarge(ds))
      && (ParsedInt(b) == IntErr(InvalidDigit) <==> ds != [] && !AllDigits(ds) && !TooLarge(ds))
  {
    var ds := b[SignLen(b)..];
    assert ds[..0] == [];
    ScanFaults(ds, 0);
  }

  /** Parsing undoes printing for every 64-bit integer but the smallest, which is refused. */
  lemma {:induction false} ParseInvertsFormat(n: int)
    ensures -MAX_INT64 <= n <= MAX_INT64 ==> ParsedInt(FormatInt(n)) == IntOk(n)
    ensures n < -MAX_INT64 || MAX_INT64 < n ==> ParsedInt(FormatInt(n)).IntErr?
  {
    var b := FormatInt(n);
    var ds := Digits(if n < 0 then -n else n);
    assert b[SignLen(b)..] == ds;
    ParseIntExact(b);
  }

  // ---------------------------------------------------------------------------
  // Commands
  // ---------------------------------------------------------------------------

  datatype Arg = Text(s: Bytes) | Raw(b: Bytes) | IntArg(i: int) | Int64Arg(n: Int64) | Unsupported

  function Payload(a: Arg): Bytes
    requires !a.Unsupported?
  {
    match a
    case Text(s) => s
    case Raw(b) => b
    case IntArg(i) => FormatInt(i)
    case Int64Arg(n) => FormatInt(n as int)
  }

  function BulkBytes(p: Bytes): Bytes {
    [DOLLAR] + Digits(|p|) + CRLF + p + CRLF
  }

  function BulksBytes(ps: seq<Bytes>): Bytes {
    if ps == [] then [] else BulksBytes(ps[..|ps| - 1]) + BulkBytes(ps[|ps| - 1])
  }

  function CommandBytes(ps: seq<Bytes>): Bytes {
    [STAR] + Digits(|ps|) + CRLF + BulksBytes(ps)
  }

  function Payloads(args: seq<Arg>): (ps: seq<Bytes>)
    requires forall i | 0 <= i < |args| :: !args[i].Unsupported?
    ensures |ps| == |args|
    ensures forall i | 0 <= i < |args| :: ps[i] == Payload(args[i])
  {
    if args == [] then [] else Payloads(args[..|args| - 1]) + [Payload(args[|args| - 1])]
  }

  /** Position of the first argument of an unsupported type, or the number of arguments. */
  function FirstUnsupported(args: seq<Arg>): (k: nat)
    ensures k <= |args|
    ensures forall i | 0 <= i < k :: !args[i].Unsupported?
    ensures k < |args| ==> args[k].Unsupported?
  {
    if args == [] || args[0].Unsupported? then 0 else 1 + FirstUnsupported(args[1..])
  }

  lemma BulkInPieces(out: Bytes, s: Bytes)
    ensures out + ([DOLLAR] + Digits(|s|) + CRLF) + s + CRLF == out + BulkBytes(s)
  {
    var header := [DOLLAR] + Digits(|s|) + CRLF;
    Regroup(out, header, s);
    Regroup(out, header + s, CRLF);
  }

  lemma BulksOfNext(args: seq<Arg>, i: nat)
    requires i < FirstUnsupported(args)
    ensures BulksBytes(Payloads(args[..i + 1])) == BulksBytes(Payloads(args[..i])) + BulkBytes(Payload(args[i]))
  {
    assert args[..i + 1][..i] == args[..i];
    var before := Payloads(args[..i]);
    assert Payloads(args[..i + 1]) == before + [Payload(args[i])];
    TakePast(before, [Payload(args[i])], i);
    assert before + [][..0] == before;
  }

  /** One round of the loop: header, payload and terminator add the next bulk string. */
  lemma NextBulk(head: Bytes, args: seq<Arg>, i: nat)
    requires i < FirstUnsupported(args)
    ensures
      var s := Payload(args[i]);
      head + BulksBytes(Payloads(args[..i])) + ([DOLLAR] + Digits(|s|) + CRLF) + s + CRLF ==
      head + BulksBytes(Payloads(args[..i + 1]))
  {
    var s := Payload(args[i]);
    BulkInPieces(head + BulksBytes(Payloads(args[..i])), s);
    Regroup(head, BulksBytes(Payloads(args[..i])), BulkBytes(s));
    BulksOfNext(args, i);
  }

  // A reader of commands, as a server would have it.

  datatype Header = Header(n: nat, rest: Bytes) | NoHeader

  datatype Bulk = Bulk(p: Bytes, rest: Bytes) | NoBulk

  datatype Bulks = Bulks(strings: seq<Bytes>, rest: Bytes) | NoBulks

  /** Position of the first CR, or the length when there is none. */
  function FirstCr(s: Bytes): (k: nat)
    ensures k <= |s|
    ensures forall i | 0 <= i < k :: s[i] != CR
    ensures k < |s| ==> s[k] == CR
  {
    if s == [] || s[0] == CR then 0 else 1 + FirstCr(s[1..])
  }

  /** A mark, a number in decimal and a line terminator. */
  function ReadHeader(mark: Byte, s: Bytes): Header {
    if s == [] || s[0] != mark then NoHeader else
    var k := FirstCr(s[1..]);
    var ds := s[1..][..k];
    if ds == [] || !AllDigits(ds) || k + 2 >= |s| || s[k + 2] != LF then NoHeader
    else Header(DecimalValue(ds), s[k + 3..])
  }

  /** One length-prefixed string. */
  function ReadBulk(s: Bytes): Bulk {
    var h := ReadHeader(DOLLAR, s);
    if h.NoHeader? || |h.rest| < h.n + 2 || h.rest[h.n..h.n + 2] != CRLF then NoBulk
    else Bulk(h.rest[..h.n], h.rest[h.n + 2..])
  }

  /** n length-prefixed strings. */
  function ReadBulks(n: nat, s: Bytes): Bulks {
    if n == 0 then Bulks([], s) else
    match ReadBulk(s)
    case NoBulk => NoBulks
    case Bulk(p, rest) =>
      match ReadBulks(n - 1, rest)
      case NoBulks => NoBulks
      case Bulks(more, left) => Bulks([p] + more, left)
  }

  /** A counted array of length-prefixed strings. */
  function ReadCommand(s: Bytes): Bulks {
    var h := ReadHeader(STAR, s);
    if h.NoHeader? then NoBulks else ReadBulks(h.n, h.rest)
  }

  /** The bytes are a decimal, with a minus sign exactly when it is negative, of the number. */
  ghost predicate Denotes(b: Bytes, n: int) {
    var ds := b[SignLen(b)..];
    && ds != [] && AllDigits(ds) && b[0] != PLUS
    && (n < 0 <==> b[0] == MINUS)
    && DecimalValue(ds) == if n < 0 then -n else n
  }

  /** What a server is to take a string for, given the argument it stands for. */
  ghost predicate StandsFor(p: Bytes, a: Arg) {
    match a
    case Text(s) => p == s
    case Raw(b) => p == b
    case IntArg(i) => Denotes(p, i)
    case Int64Arg(n) => Denotes(p, n as int)
    case Unsupported => false
  }

  /** A server that reads the bytes gets one string for each argument, standing for it,
      and is left with what follows. */
  ghost predicate Conveys(s: Bytes, args: seq<Arg>, rest: Bytes) {
    var r := ReadCommand(s);
    && r.Bulks? && r.rest == rest && |r.strings| == |args|
    && forall i | 0 <= i < |args| :: StandsFor(r.strings[i], args[i])
  }

  /** Two numbers printed up to a CR agree when what follows agrees as bytes. */
  lemma DigitsUntilCr(m: nat, n: nat, x: Bytes, y: Bytes)
    requires Digits(m) + CRLF + x == Digits(n) + CRLF + y
    ensures m == n && x == y
  {
    var a, b := Digits(m), Digits(n);
    var s, t := a + CRLF + x, b + CRLF + y;
    assert s[|a|] == CR && t[|b|] == CR;
    assert forall i | 0 <= i < |a| :: s[i] == a[i] && s[i] != CR;
    assert forall i | 0 <= i < |b| :: t[i] == b[i] && t[i] != CR;
    assert |a| == |b|;
    assert a == s[..|a|] == t[..|b|] == b;
    assert x == s[|a| + 2..] == t[|b| + 2..] == y;
  }

  lemma HeaderTail(mark: Byte, a: Bytes, x: Bytes)
    ensures ([mark] + a + CRLF + x)[1..] == a + CRLF + x
  {
  }

  lemma HeaderUnique(mark: Byte, m: nat, n: nat, x: Bytes, y: Bytes)
    requires [mark] + Digits(m) + CRLF + x == [mark] + Digits(n) + CRLF + y
    ensures m == n && x == y
  {
    HeaderTail(mark, Digits(m), x);
    HeaderTail(mark, Digits(n), y);
    DigitsUntilCr(m, n, x, y);
  }

  lemma SplitAt(p: Bytes, q: Bytes, x: Bytes, y: Bytes)
    requires |p| == |q| && p + x == q + y
    ensures p == q && x == y
  {
    assert p == (p + x)[..|p|] && q == (q + y)[..|q|];
    assert x == (p + x)[|p|..] && y == (q + y)[|q|..];
  }

  lemma BulkOpens(p: Bytes, x: Bytes)
    ensures BulkBytes(p) + x == [DOLLAR] + Digits(|p|) + CRLF + (p + (CRLF + x))
  {
    var header := [DOLLAR] + Digits(|p|) + CRLF;
    Regroup(header + p, CRLF, x);
    Regroup(header, p, CRLF + x);
  }

  lemma BulkUnique(p: Bytes, q: Bytes, x: Bytes, y: Bytes)
    requires BulkBytes(p) + x == BulkBytes(q) + y
    ensures p == q && x == y
  {
    BulkOpens(p, x);
    BulkOpens(q, y);
    HeaderUnique(DOLLAR, |p|, |q|, p + (CRLF + x), q + (CRLF + y));
    SplitAt(p, q, CRLF + x, CRLF + y);
    SplitAt(CRLF, CRLF, x, y);
  }

  lemma {:induction false} BulksFront(ps: seq<Bytes>)
    requires ps != []
    ensures BulksBytes(ps) == BulkBytes(ps[0]) + BulksBytes(ps[1..])
  {
    var n := |ps| - 1;
    var front, rest := ps[..n], ps[1..];
    if n == 0 {
      assert front == [] && rest == [];
    } else {
      BulksFront(front);
      SliceBothEnds(ps);
      Regroup(BulkBytes(ps[0]), BulksBytes(rest[..n - 1]), BulkBytes(ps[n]));
    }
  }

  lemma {:induction false} BulksUnique(ps: seq<Bytes>, qs: seq<Bytes>, x: Bytes, y: Bytes)
    requires |ps| == |qs|
    requires BulksBytes(ps) + x == BulksBytes(qs) + y
    ensures ps == qs && x == y
  {
    if ps == [] {
      assert BulksBytes(ps) + x == x && BulksBytes(qs) + y == y;
    } else {
      BulksFront(ps);
      BulksFront(qs);
      var more, other := BulksBytes(ps[1..]), BulksBytes(qs[1..]);
      Regroup(BulkBytes(ps[0]), more, x);
      Regroup(BulkBytes(qs[0]), other, y);
      BulkUnique(ps[0], qs[0], more + x, other + y);
      BulksUnique(ps[1..], qs[1..], x, y);
      SameHeadAndTail(ps, qs);
    }
  }

  /** Commands are uniquely decodable, whatever bytes their arguments hold and
      whatever follows them on the connection. */
  lemma {:induction false} CommandUnique(ps: seq<Bytes>, qs: seq<Bytes>, x: Bytes, y: Bytes)
    requires CommandBytes(ps) + x == CommandBytes(qs) + y
    ensures ps == qs && x == y
  {
    Regroup([STAR] + Digits(|ps|) + CRLF, BulksBytes(ps), x);
    Regroup([STAR] + Digits(|qs|) + CRLF, BulksBytes(qs), y);
    HeaderUnique(STAR, |ps|, |qs|, BulksBytes(ps) + x, BulksBytes(qs) + y);
    BulksUnique(ps, qs, x, y);
  }

  lemma HeaderReadsBack(mark: Byte, n: nat, x: Bytes)
    ensures ReadHeader(mark, [mark] + Digits(n) + CRLF + x) == Header(n, x)
  {
    var ds := Digits(n);
    var s := [mark] + ds + CRLF + x;
    HeaderTail(mark, ds, x);
    var tail := s[1..];
    assert tail[|ds|] == CR && tail[|ds| + 1] == LF;
    assert forall i | 0 <= i < |ds| :: tail[i] == ds[i] && tail[i] != CR;
    assert FirstCr(tail) == |ds|;
    assert tail[..|ds|] == ds;
    assert s[|ds| + 3..] == x;
  }

  lemma PayloadSplits(p: Bytes, x: Bytes)
    ensures
      var s := p + (CRLF + x);
      s[..|p|] == p && s[|p|..|p| + 2] == CRLF && s[|p| + 2..] == x
  {
  }

  lemma BulkReadsBack(p: Bytes, x: Bytes)
    ensures ReadBulk(BulkBytes(p) + x) == Bulk(p, x)
  {
    BulkOpens(p, x);
    HeaderReadsBack(DOLLAR, |p|, p + (CRLF + x));
    PayloadSplits(p, x);
  }

  lemma {:induction false} BulksReadBack(ps: seq<Bytes>, x: Bytes)
    ensures ReadBulks(|ps|, BulksBytes(ps) + x) == Bulks(ps, x)
  {
    if ps == [] {
      assert BulksBytes(ps) + x == x;
    } else {
      BulksFront(ps);
      Regroup(BulkBytes(ps[0]), BulksBytes(ps[1..]), x);
      BulkReadsBack(ps[0], BulksBytes(ps[1..]) + x);
      BulksReadBack(ps[1..], x);
      assert [ps[0]] + ps[1..] == ps;
    }
  }

  /** Reading the bytes of a command gives its strings and leaves what follows. */
  lemma {:induction false} CommandReadsBack(ps: seq<Bytes>, x: Bytes)
    ensures ReadCommand(CommandBytes(ps) + x) == Bulks(ps, x)
  {
    Regroup([STAR] + Digits(|ps|) + CRLF, BulksBytes(ps), x);
    HeaderReadsBack(STAR, |ps|, BulksBytes(ps) + x);
    BulksReadBack(ps, x);
  }

  lemma FormatDenotes(n: int)
    ensures Denotes(FormatInt(n), n)
  {
    var b := FormatInt(n);
    assert b[SignLen(b)..] == Digits(if n < 0 then -n else n);
  }

  lemma PayloadStandsFor(a: Arg)
    requires !a.Unsupported?
    ensures StandsFor(Payload(a), a)
  {
    match a {
      case IntArg(i) => FormatDenotes(i);
      case Int64Arg(n) => FormatDenotes(n as int);
      case _ =>
    }
  }

  /** The command bytes convey the arguments, whatever follows on the connection. */
  lemma {:induction false} CommandConveys(args: seq<Arg>, x: Bytes)
    requires forall i | 0 <= i < |args| :: !args[i].Unsupported?
    ensures Conveys(CommandBytes(Payloads(args)) + x, args, x)
  {
    CommandReadsBack(Payloads(args), x);
    forall i | 0 <= i < |args|
      ensures StandsFor(Payloads(args)[i], args[i])
    {
      PayloadStandsFor(args[i]);
    }
  }

  /** writeCommand.  It fails exactly on an unsupported argument, after writing what precedes it. */
  method WriteCommand(args: seq<Arg>) returns (ok: bool, out: Bytes)
    ensures ok <==> FirstUnsupported(args) == |args|
    ensures ok ==> out == CommandBytes(Payloads(args)) && Conveys(out, args, [])
    ensures !ok ==>
      out == [STAR] + Digits(|args|) + CRLF + BulksBytes(Payloads(args[..FirstUnsupported(args)]))
  {
    out := [STAR] + Digits(|args|) + CRLF;
    ghost var head := out;
    var i := 0;
    while i < |args|
      invariant 0 <= i <= FirstUnsupported(args)
      invariant out == head + BulksBytes(Payloads(args[..i]))
    {
      var arg := args[i];
      if arg.Unsupported? {
        assert i == FirstUnsupported(args);
        return false, out;
      }
      var s := Payload(arg);
      NextBulk(head, args, i);
      out := out + ([DOLLAR] + Digits(|s|) + CRLF);
      out := out + s;
      out := out + CRLF;
      i := i + 1;
    }
    assert args[..i] == args;
    CommandConveys(args, []);
    assert out + [] == out;
    ok := true;
  }

  // ---------------------------------------------------------------------------
  // Lines
  // ---------------------------------------------------------------------------

  /** Position of the first LF, or the length when there is none. */
  function FirstLf(s: Bytes): (k: nat)
    ensures k <= |s|
    ensures forall i | 0 <= i < k :: s[i] != LF
    ensures k < |s| ==> s[k] == LF
  {
    if s == [] || s[0] == LF then 0 else 1 + FirstLf(s[1..])
  }

  function StripCr(s: Bytes): Bytes {
    if s != [] && s[|s| - 1] == CR then s[..|s| - 1] else s
  }

  datatype Fragment = Fragment(line: Bytes, isPrefix: bool, rest: Bytes) | Interrupted

  /** One ReadLine call of a buffered reader with a buffer of the given size, on a
      stream that delivers s and is then interrupted (end of stream, reset or
      deadline).  A full buffer gives a prefix, whose final CR is put back; an
      interruption is reported only when no byte precedes it. */
  function ReadFragment(s: Bytes, size: nat): (f: Fragment)
    requires 2 <= size
    ensures f.Fragment? && s != [] ==> |f.rest| < |s|
  {
    var k := FirstLf(s);
    if k < |s| && k < size then Fragment(StripCr(s[..k]), false, s[k + 1..])
    else if |s| >= size then
      if s[size - 1] == CR then Fragment(s[..size - 1], true, s[size - 1..])
      else Fragment(s[..size], true, s[size..])
    else if s == [] then Interrupted
    else Fragment(s, false, [])
  }

  datatype LineResult = LineOk(line: Bytes, rest: Bytes) | LineErr(fault: Fault)

  function Accumulate(full: Bytes, s: Bytes, size: nat): LineResult
    requires 2 <= size
    decreases |s|
  {
    match ReadFragment(s, size)
    case Interrupted => LineErr(if |full| > MAX_LINE then LineTooLong else Io)
    case Fragment(line, isPrefix, rest) =>
      if |full + line| > MAX_LINE then LineErr(LineTooLong)
      else if isPrefix then Accumulate(full + line, rest, size)
      else LineOk(full + line, rest)
  }

  function LineOf(s: Bytes, size: nat): LineResult
    requires 2 <= size
  {
    match ReadFragment(s, size)
    case Interrupted => LineErr(Io)
    case Fragment(line, isPrefix, rest) =>
      if isPrefix then Accumulate(line, rest, size) else LineOk(line, rest)
  }

  function BulkOf(n: int, s: Bytes): ReplyResult {
    if n == -1 then ReplyOk(NilReply, s)
    else if n < 0 || n > MAX_BULK then ReplyErr(BulkRange)
    else if |s| < n + 2 then ReplyErr(Io)
    else if s[n] != CR || s[n + 1] != LF then ReplyErr(BulkNotTerminated)
    else ReplyOk(TextReply(s[..n]), s[n + 2..])
  }

  function ReplyFor(mark: Byte, text: Bytes, rest: Bytes): ReplyResult {
    if mark == PLUS then ReplyOk(TextReply(text), rest)
    else if mark == MINUS then ReplyOk(ErrorReply(text), rest)
    else if mark == COLON then
      (match ParsedInt(text)
       case IntErr(f) => ReplyErr(f)
       case IntOk(n) => ReplyOk(IntReply(n), rest))
    else if mark == DOLLAR then
      (match ParsedInt(text)
       case IntErr(f) => ReplyErr(f)
       case IntOk(n) => BulkOf(n, rest))
    else ReplyErr(UnexpectedType)
  }

  /** What the opening line decides. */
  function ReplyOfLine(line: Bytes, rest: Bytes): ReplyResult {
    if line == [] then ReplyErr(EmptyLine) else ReplyFor(line[0], line[1..], rest)
  }

  function ReplyOf(s: Bytes, size: nat): ReplyResult
    requires 2 <= size
  {
    match LineOf(s, size)
    case LineErr(f) => ReplyErr(f)
    case LineOk(line, rest) => ReplyOfLine(line, rest)
  }

  /** The buffered reader of one connection. */
  class Reader {
    const size: nat
    var pending: Bytes

    constructor (size: nat, pending: Bytes)
      ensures this.size == size && this.pending == pending
    {
      this.size := size;
      this.pending := pending;
    }

    /** The library call: one fragment of a line. */
    method Fragment() returns (f: Fragment)
      requires 2 <= size
      modifies this`pending
      ensures f == ReadFragment(old(pending), size)
      ensures pending == if f.Fragment? then f.rest else old(pending)
    {
      f := ReadFragment(pending, size);
      if f.Fragment? {
        pending := f.rest;
      }
    }

    /** readLine: one line, accumulated from as many fragments as it takes. */
    method ReadLine() returns (r: LineResult)
      requires 2 <= size
      modifies this`pending
      ensures r == LineOf(old(pending), size)
      ensures r.LineOk? ==> pending == r.rest
    {
      var f := Fragment();
      if f.Interrupted? {
        return LineErr(Io);
      }
      if !f.isPrefix {
        return LineOk(f.line, pending);
      }
      var full := f.line;
      ghost var start, head := pending, full;
      while f.Fragment? && f.isPrefix
        invariant f.Fragment? ==> pending == f.rest
        invariant f.Fragment? && f.isPrefix ==>
          Accumulate(head, start, size) == Accumulate(full, pending, size)
        invariant f.Fragment? && !f.isPrefix ==>
          Accumulate(head, start, size) == LineOk(full, pending)
        invariant f.Interrupted? ==>
          |full| <= MAX_LINE && Accumulate(head, start, size) == LineErr(Io)
        decreases f.Fragment?, f.Fragment? && f.isPrefix, |pending|
      {
        f := Fragment();
        if f.Fragment? {
          full := full + f.line;
        }
        if |full| > MAX_LINE {
          return LineErr(LineTooLong);
        }
      }
      if f.Interrupted? {
        return LineErr(Io);
      }
      return LineOk(full, pending);
    }

    /** readReply: one reply, consuming exactly its bytes when it succeeds. */
    method ReadReply() returns (r: ReplyResult)
      requires 2 <= size
      modifies this`pending
      ensures r == ReplyOf(old(pending), size)
      ensures r.ReplyOk? ==> pending == r.rest
    {
      var l := ReadLine();
      if l.LineErr? {
        return ReplyErr(l.fault);
      }
      var line := l.line;
      if |line| == 0 {
        return ReplyErr(EmptyLine);
      }
      if line[0] == PLUS {
        return ReplyOk(TextReply(line[1..]), pending);
      } else if line[0] == MINUS {
        return ReplyOk(ErrorReply(line[1..]), pending);
      } else if line[0] == COLON {
        var n := ParseInt(line[1..]);
        return if n.IntOk? then ReplyOk(IntReply(n.n), pending) else ReplyErr(n.fault);
      } else if line[0] == DOLLAR {
        var n := ParseInt(line[1..]);
        if n.IntErr? {
          return ReplyErr(n.fault);
        }
        if n.n == -1 {
          return ReplyOk(NilReply, pending);
        }
        if n.n < 0 || n.n > MAX_BULK {
          return ReplyErr(BulkRange);
        }
        if |pending| < n.n + 2 {
          return ReplyErr(Io);
        }
        var payload, crlf := pending[..n.n], pending[n.n..n.n + 2];
        pending := pending[n.n + 2..];
        if crlf[0] != CR || crlf[1] != LF {
          return ReplyErr(BulkNotTerminated);
        }
        return ReplyOk(TextReply(payload), pending);
      } else {
        return ReplyErr(UnexpectedType);
      }
    }
  }

  lemma {:induction false} FirstLfAfter(s: Bytes, j: nat)
    requires j <= FirstLf(s) < |s|
    ensures FirstLf(s[j..]) == FirstLf(s) - j
  {
    var k := FirstLf(s) - j;
    assert s[j..][k] == LF;
    assert forall i | 0 <= i < k :: s[j..][i] != LF;
  }

  /** A buffer filled before the LF is a non-empty prefix of the line, and a final
      CR of the line never goes with it. */
  lemma FullFragment(s: Bytes, size: nat)
    requires 2 <= size <= FirstLf(s) < |s|
    ensures
      var f := ReadFragment(s, size);
      var j := |f.line|;
      && f.isPrefix && 1 <= j <= FirstLf(s) && f.line == s[..j] && f.rest == s[j..]
      && FirstLf(f.rest) == FirstLf(s) - j
      && (f.rest[0] == LF ==> f.line[j - 1] != CR)
  {
    FirstLfAfter(s, |ReadFragment(s, size).line|);
  }

  lemma StripCrAfter(a: Bytes, b: Bytes)
    requires b == [] ==> a == [] || a[|a| - 1] != CR
    ensures StripCr(a + b) == a + StripCr(b)
  {
    if b != [] {
      assert (a + b)[..|a + b| - 1] == a + b[..|b| - 1];
    } else {
      assert a + b == a;
    }
  }

  lemma FullFragmentLine(s: Bytes, size: nat)
    requires 2 <= size <= FirstLf(s) < |s|
    ensures
      var f := ReadFragment(s, size);
      && f.Fragment? && FirstLf(f.rest) < |f.rest|
      && f.line + StripCr(f.rest[..FirstLf(f.rest)]) == StripCr(s[..FirstLf(s)])
  {
    FullFragment(s, size);
    var k := FirstLf(s);
    var j := |ReadFragment(s, size).line|;
    SliceSplit(s, j, k);
    StripCrAfter(s[..j], s[j..k]);
  }

  lemma FullFragmentRest(s: Bytes, size: nat)
    requires 2 <= size <= FirstLf(s) < |s|
    ensures
      var f := ReadFragment(s, size);
      && f.Fragment? && FirstLf(f.rest) < |f.rest|
      && f.rest[FirstLf(f.rest) + 1..] == s[FirstLf(s) + 1..]
  {
    FullFragment(s, size);
  }

  /** The line that ends at the first LF of s, appended to what was read before. */
  function TerminatedLine(full: Bytes, s: Bytes): LineResult
    requires FirstLf(s) < |s|
  {
    var line := full + StripCr(s[..FirstLf(s)]);
    if |line| > MAX_LINE then LineErr(LineTooLong) else LineOk(line, s[FirstLf(s) + 1..])
  }

  /** The terminated line depends only on the text up to the LF and what follows it. */
  lemma TerminatedLineOf(full: Bytes, s: Bytes, text: Bytes, rest: Bytes)
    requires FirstLf(s) < |s| && full + StripCr(s[..FirstLf(s)]) == text && s[FirstLf(s) + 1..] == rest
    ensures TerminatedLine(full, s) == if |text| > MAX_LINE then LineErr(LineTooLong) else LineOk(text, rest)
  {
  }

  lemma TerminatedLineStep(full: Bytes, s: Bytes, size: nat)
    requires 2 <= size <= FirstLf(s) < |s|
    ensures
      var f := ReadFragment(s, size);
      && FirstLf(f.rest) < |f.rest|
      && TerminatedLine(full + f.line, f.rest) == TerminatedLine(full, s)
  {
    FullFragmentLine(s, size);
    FullFragmentRest(s, size);
    var f := ReadFragment(s, size);
    var text, rest := full + StripCr(s[..FirstLf(s)]), s[FirstLf(s) + 1..];
    Regroup(full, f.line, StripCr(f.rest[..FirstLf(f.rest)]));
    TerminatedLineOf(full, s, text, rest);
    TerminatedLineOf(full + f.line, f.rest, text, rest);
  }

  /** Reading a terminated line from any state of the accumulation. */
  lemma {:induction false} AccumulateLine(full: Bytes, s: Bytes, size: nat)
    requires 2 <= size && FirstLf(s) < |s|
    requires s[0] == LF ==> full == [] || full[|full| - 1] != CR
    ensures Accumulate(full, s, size) == TerminatedLine(full, s)
    decreases |s|
  {
    if FirstLf(s) >= size {
      FullFragment(s, size);
      TerminatedLineStep(full, s, size);
      var f := ReadFragment(s, size);
      if |full + f.line| <= MAX_LINE {
        AccumulateLine(full + f.line, f.rest, size);
      }
    }
  }

  lemma LineFromNothing(s: Bytes, size: nat)
    requires 2 <= size <= MAX_LINE
    ensures LineOf(s, size) == Accumulate([], s, size)
  {
    var f := ReadFragment(s, size);
    if f.Fragment? {
      assert [] + f.line == f.line;
      assert |f.line| <= size;
    }
  }

  /** A terminated line reads the same for every buffer size: the fragments do not show. */
  lemma {:induction false} LineIgnoresFragments(s: Bytes, size: nat)
    requires 2 <= size <= MAX_LINE && FirstLf(s) < |s|
    ensures LineOf(s, size) == TerminatedLine([], s)
  {
    LineFromNothing(s, size);
    AccumulateLine([], s, size);
  }

  // ---------------------------------------------------------------------------
  // Replies
  // ---------------------------------------------------------------------------

  /** What the client hands to the caller. */
  datatype Reply = TextReply(s: Bytes) | ErrorReply(s: Bytes) | IntReply(n: int) | NilReply

  datatype ReplyResult = ReplyOk(v: Reply, rest: Bytes) | ReplyErr(fault: Fault)

  /** A reply as the server sends it. */
  datatype Frame = SimpleFrame(s: Bytes) | ErrorFrame(s: Bytes) | IntFrame(n: int) | BulkFrame(p: Bytes) | NullFrame

  predicate WellFormed(f: Frame) {
    match f
    case SimpleFrame(s) => LF !in s && |s| < MAX_LINE
    case ErrorFrame(s) => LF !in s && |s| < MAX_LINE
    case IntFrame(n) => -MAX_INT64 <= n <= MAX_INT64
    case BulkFrame(p) => |p| <= MAX_BULK
    case NullFrame => true
  }

  /** The byte that tells the type of a frame, and the rest of its opening line. */
  function Mark(f: Frame): Byte {
    match f
    case SimpleFrame(_) => PLUS
    case ErrorFrame(_) => MINUS
    case IntFrame(_) => COLON
    case BulkFrame(_) => DOLLAR
    case NullFrame => DOLLAR
  }

  function Label(f: Frame): Bytes {
    match f
    case SimpleFrame(s) => s
    case ErrorFrame(s) => s
    case IntFrame(n) => FormatInt(n)
    case BulkFrame(p) => FormatInt(|p|)
    case NullFrame => FormatInt(-1)
  }

  /** The line that opens a frame, without its terminator. */
  function Head(f: Frame): Bytes {
    [Mark(f)] + Label(f)
  }

  function Body(f: Frame): Bytes {
    if f.BulkFrame? then f.p + CRLF else []
  }

  function Encode(f: Frame): Bytes {
    Head(f) + CRLF + Body(f)
  }

  function Meaning(f: Frame): Reply {
    match f
    case SimpleFrame(s) => TextReply(s)
    case ErrorFrame(s) => ErrorReply(s)
    case IntFrame(n) => IntReply(n)
    case BulkFrame(p) => TextReply(p)
    case NullFrame => NilReply
  }

  function EncodeAll(fs: seq<Frame>): Bytes {
    if fs == [] then [] else Encode(fs[0]) + EncodeAll(fs[1..])
  }

  /** Reads n replies in a row. */
  function ReplyList(s: Bytes, n: nat, size: nat): (r: (seq<ReplyResult>, Bytes))
    requires 2 <= size
    decreases n
  {
    if n == 0 then ([], s) else
    var first := ReplyOf(s, size);
    if first.ReplyErr? then ([first], s) else
    var more := ReplyList(first.rest, n - 1, size);
    ([first] + more.0, more.1)
  }

  function Pow10(k: nat): nat {
    if k == 0 then 1 else 10 * Pow10(k - 1)
  }

  lemma {:induction false} DigitsShort(n: nat, bound: nat)
    requires n < Pow10(bound) && 0 < bound
    ensures |Digits(n)| <= bound
  {
    if n >= 10 {
      DigitsShort(n / 10, bound - 1);
    }
  }

  lemma Pow10Of20()
    ensures Pow10(20) == 100_000_000_000_000_000_000
  {
    assert Pow10(4) == 10_000;
    assert Pow10(8) == 100_000_000;
    assert Pow10(12) == 1_000_000_000_000;
    assert Pow10(16) == 10_000_000_000_000_000;
  }

  /** The opening line of a well-formed frame holds no LF and is within the line limit. */
  lemma HeadFits(f: Frame)
    requires WellFormed(f)
    ensures LF !in Head(f) && 1 <= |Head(f)| <= MAX_LINE
  {
    Pow10Of20();
    match f {
      case IntFrame(n) => DigitsShort(if n < 0 then -n else n, 20);
      case BulkFrame(p) => DigitsShort(|p|, 20);
      case _ =>
    }
  }

  lemma FirstLfAfterLine(h: Bytes, rest: Bytes)
    requires LF !in h
    ensures
      var s := h + CRLF + rest;
      FirstLf(s) == |h| + 1 && s[..|h| + 1] == h + [CR] && s[|h| + 2..] == rest
  {
    var s := h + CRLF + rest;
    assert forall i | 0 <= i < |h| :: s[i] == h[i];
    assert s[|h|] == CR && s[|h| + 1] == LF;
  }

  lemma LineReadsBack(h: Bytes, rest: Bytes, size: nat)
    requires LF !in h && |h| <= MAX_LINE && 2 <= size <= MAX_LINE
    ensures LineOf(h + CRLF + rest, size) == LineOk(h, rest)
  {
    FirstLfAfterLine(h, rest);
    LineIgnoresFragments(h + CRLF + rest, size);
    assert StripCr(h + [CR]) == h;
    assert [] + h == h;
  }

  lemma HeadLine(f: Frame, rest: Bytes, size: nat)
    requires WellFormed(f) && 2 <= size <= MAX_LINE
    ensures LineOf(Head(f) + CRLF + rest, size) == LineOk(Head(f), rest)
  {
    HeadFits(f);
    LineReadsBack(Head(f), rest, size);
  }

  lemma LineFrameDecides(f: Frame, rest: Bytes)
    requires WellFormed(f) && !f.BulkFrame?
    ensures ReplyFor(Mark(f), Label(f), rest) == ReplyOk(Meaning(f), rest)
  {
    if f.IntFrame? {
      ParseInvertsFormat(f.n);
    } else if f.NullFrame? {
      ParseInvertsFormat(-1);
    }
  }

  lemma BulkBodyReadsBack(p: Bytes, rest: Bytes)
    requires |p| <= MAX_BULK
    ensures BulkOf(|p|, p + CRLF + rest) == ReplyOk(TextReply(p), rest)
  {
    var b := p + CRLF + rest;
    assert b[..|p|] == p && b[|p|] == CR && b[|p| + 1] == LF && b[|p| + 2..] == rest;
  }

  lemma ReplyOfOpening(s: Bytes, size: nat, mark: Byte, text: Bytes, rest: Bytes)
    requires 2 <= size && LineOf(s, size) == LineOk([mark] + text, rest)
    ensures ReplyOf(s, size) == ReplyFor(mark, text, rest)
  {
    ConsTail(mark, text);
  }

  lemma BulkLineReply(p: Bytes, body: Bytes, size: nat)
    requires |p| <= MAX_BULK && 2 <= size <= MAX_LINE
    ensures ReplyOf(Head(BulkFrame(p)) + CRLF + body, size) == BulkOf(|p|, body)
  {
    var f := BulkFrame(p);
    HeadLine(f, body, size);
    ParseInvertsFormat(|p|);
    ReplyOfOpening(Head(f) + CRLF + body, size, DOLLAR, FormatInt(|p|), body);
  }

  /** A well-formed reply is read back as its meaning, consuming exactly its own
      bytes, whatever follows and however the line is cut into fragments. */
  lemma {:induction false} ReplyReadsBack(f: Frame, rest: Bytes, size: nat)
    requires WellFormed(f) && 2 <= size <= MAX_LINE
    ensures ReplyOf(Encode(f) + rest, size) == ReplyOk(Meaning(f), rest)
  {
    var body := Body(f) + rest;
    Regroup(Head(f) + CRLF, Body(f), rest);
    if f.BulkFrame? {
      BulkLineReply(f.p, body, size);
      BulkBodyReadsBack(f.p, rest);
    } else {
      assert body == rest;
      HeadLine(f, rest, size);
      ReplyOfOpening(Head(f) + CRLF + rest, size, Mark(f), Label(f), rest);
      LineFrameDecides(f, rest);
    }
  }

  /** How a line can end: with CRLF, with a bare LF, or by the end of what was received. */
  ghost predicate IsEnd(end: Bytes, rest: Bytes) {
    end == CRLF || end == [LF] || (end == [] && rest == [])
  }

  /** One fragment is the first bytes of the stream, and what follows it is the rest, or
      the end of the line and then the rest. */
  lemma FragmentSound(s: Bytes, size: nat) returns (end: Bytes)
    requires 2 <= size && ReadFragment(s, size).Fragment?
    ensures
      var f := ReadFragment(s, size);
      && s != [] && |f.line| <= |s| && f.line == s[..|f.line|] && s[|f.line|..] == end + f.rest
      && (if f.isPrefix then f.rest == s[|f.line|..] else IsEnd(end, f.rest))
  {
    var f, k := ReadFragment(s, size), FirstLf(s);
    var n := |f.line|;
    if k < |s| && k < size {
      end := if n < k then CRLF else [LF];
      assert s[n..] == end + s[k + 1..];
    } else {
      end := [];
    }
  }

  lemma SplitFurther(full: Bytes, s: Bytes, j: nat, n: nat, line: Bytes, tail: Bytes)
    requires j + n <= |s| && line == (full + s[..j]) + s[j..][..n] && s[j..][n..] == tail
    ensures line == full + s[..j + n] && s[j + n..] == tail
  {
    SliceSplit(s, j, j + n);
    Regroup(full, s[..j], s[j..][..n]);
  }

  /** The line is what was read before and the bytes of the stream up to its end. */
  ghost predicate LineTaken(full: Bytes, s: Bytes, r: LineResult, n: nat, end: Bytes) {
    && r.LineOk? && s != [] && n <= |s|
    && r.line == full + s[..n] && s[n..] == end + r.rest && IsEnd(end, r.rest)
  }

  lemma LineTakenFurther(full: Bytes, s: Bytes, r: LineResult, j: nat, n: nat, end: Bytes)
    requires j <= |s| && LineTaken(full + s[..j], s[j..], r, n, end)
    ensures LineTaken(full, s, r, j + n, end)
  {
    SplitFurther(full, s, j, n, r.line, end + r.rest);
  }

  /** An accumulated line is within the limit and was taken from the stream. */
  lemma {:induction false} AccumulateSound(full: Bytes, s: Bytes, size: nat) returns (n: nat, end: Bytes)
    requires 2 <= size && Accumulate(full, s, size).LineOk?
    ensures |Accumulate(full, s, size).line| <= MAX_LINE && LineTaken(full, s, Accumulate(full, s, size), n, end)
    decreases |s|
  {
    var f := ReadFragment(s, size);
    end := FragmentSound(s, size);
    n := |f.line|;
    if f.isPrefix {
      var m: nat;
      m, end := AccumulateSound(full + f.line, f.rest, size);
      LineTakenFurther(full, s, Accumulate(full, s, size), n, m, end);
      n := n + m;
    }
  }

  lemma LineSplits(s: Bytes, n: nat, end: Bytes, rest: Bytes, text: Bytes)
    requires 0 < n <= |s| && s[n..] == end + rest && text == s[..n][1..]
    ensures s == [s[0]] + text + end + rest
  {
    assert s == s[..n] + s[n..];
    assert s[..n] == [s[0]] + text;
    Regroup([s[0]] + text, end, rest);
  }

  lemma ReplyForSound(mark: Byte, text: Bytes, end: Bytes, left: Bytes)
    requires ReplyFor(mark, text, left).ReplyOk? && IsEnd(end, left)
    ensures
      var v, rest := ReplyFor(mark, text, left).v, ReplyFor(mark, text, left).rest;
      match v
      case ErrorReply(x) => x == text && mark == MINUS && left == rest
      case IntReply(n) => DenotesInt(text) && DenotedInt(text) == n && mark == COLON && left == rest
      case NilReply => DenotesInt(text) && DenotedInt(text) == -1 && mark == DOLLAR && left == rest
      case TextReply(x) =>
        || (x == text && mark == PLUS && left == rest)
        || (&& mark == DOLLAR && DenotesInt(text) && DenotedInt(text) == |x| <= MAX_BULK && (end == CRLF || end == [LF])
            && left == x + CRLF + rest)
  {
    ParseIntExact(text);
    if mark == DOLLAR && ReplyFor(mark, text, left).v.TextReply? {
      var n := DenotedInt(text);
      assert left == left[..n] + left[n..n + 2] + left[n + 2..];
      assert left[n..n + 2] == CRLF;
    }
  }

  /** Whatever is accepted as a reply, also from a hostile server, is one: a mark, text and
      a line end, or the end of what was received; where the text is a length, that many
      bytes and CRLF; nothing more is consumed.  Text and length are within the limits. */
  lemma {:induction false} RepliesAreSound(s: Bytes, size: nat) returns (text: Bytes, end: Bytes)
    requires 2 <= size <= MAX_LINE && ReplyOf(s, size).ReplyOk?
    ensures
      var v, rest := ReplyOf(s, size).v, ReplyOf(s, size).rest;
      && s != [] && |text| < MAX_LINE
      && match v
         case ErrorReply(x) => x == text && s == [MINUS] + text + end + rest && IsEnd(end, rest)
         case IntReply(n) => DenotesInt(text) && DenotedInt(text) == n && s == [COLON] + text + end + rest && IsEnd(end, rest)
         case NilReply => DenotesInt(text) && DenotedInt(text) == -1 && s == [DOLLAR] + text + end + rest && IsEnd(end, rest)
         case TextReply(x) =>
           || (x == text && s == [PLUS] + text + end + rest && IsEnd(end, rest))
           || (&& DenotesInt(text) && DenotedInt(text) == |x| <= MAX_BULK && (end == CRLF || end == [LF])
               && s == [DOLLAR] + text + end + (x + CRLF + rest))
  {
    LineFromNothing(s, size);
    var n: nat;
    n, end := AccumulateSound([], s, size);
    var l := LineOf(s, size);
    assert l.line == s[..n];
    text := l.line[1..];
    LineSplits(s, n, end, l.rest, text);
    ReplyForSound(s[0], text, end, l.rest);
  }

  /** The results are the meanings of the frames, one for one. */
  ghost predicate OneForOne(rs: seq<ReplyResult>, fs: seq<Frame>) {
    |rs| == |fs| && forall i | 0 <= i < |fs| :: rs[i].ReplyOk? && rs[i].v == Meaning(fs[i])
  }

  lemma OneForOneFront(r: ReplyResult, rs: seq<ReplyResult>, fs: seq<Frame>)
    requires fs != [] && r.ReplyOk? && r.v == Meaning(fs[0]) && OneForOne(rs, fs[1..])
    ensures OneForOne([r] + rs, fs)
  {
    forall i | 0 < i < |fs|
      ensures ([r] + rs)[i].ReplyOk? && ([r] + rs)[i].v == Meaning(fs[i])
    {
      assert fs[1..][i - 1] == fs[i] && ([r] + rs)[i] == rs[i - 1];
    }
  }

  /** A stream of well-formed replies is read one for one, and nothing more is consumed. */
  lemma {:induction false} StreamReadsBack(fs: seq<Frame>, rest: Bytes, size: nat)
    requires 2 <= size <= MAX_LINE
    requires forall i | 0 <= i < |fs| :: WellFormed(fs[i])
    ensures
      var (rs, left) := ReplyList(EncodeAll(fs) + rest, |fs|, size);
      left == rest && OneForOne(rs, fs)
  {
    if fs == [] {
      assert EncodeAll(fs) + rest == rest;
    } else {
      var tail := EncodeAll(fs[1..]) + rest;
      Regroup(Encode(fs[0]), EncodeAll(fs[1..]), rest);
      ReplyReadsBack(fs[0], tail, size);
      StreamReadsBack(fs[1..], rest, size);
      OneForOneFront(ReplyOf(Encode(fs[0]) + tail, size), ReplyList(tail, |fs| - 1, size).0, fs);
    }
  }

  // ---------------------------------------------------------------------------
  // Interrupted replies
  // ---------------------------------------------------------------------------

  /** How much of a full buffer goes out as one fragment of a line that has no LF in it. */
  function FullLen(s: Bytes, size: nat): nat
    requires 2 <= size <= |s|
  {
    if s[size - 1] == CR then size - 1 else size
  }

  /** What an unterminated line leaves for the last fragment, after the full ones. */
  function Leftover(s: Bytes, size: nat): Bytes
    requires 2 <= size
    decreases |s|
  {
    if |s| < size then s else Leftover(s[FullLen(s, size)..], size)
  }

  /** Without a CR on the way, the full fragments are as long as the buffer. */
  lemma {:induction false} LeftoverPlain(s: Bytes, size: nat, n: nat, left: nat)
    requires 2 <= size && CR !in s && |s| == n * size + left && left < size
    ensures |Leftover(s, size)| == left
    decreases n
  {
    if n > 0 {
      assert n * size == (n - 1) * size + size;
      assert (n - 1) * size >= 0;
      LeftoverPlain(s[size..], size, n - 1, left);
    }
  }

  /** An interrupted line from any state of the accumulation: an error if the
      interruption falls between two fragments or the line is too long, and
      otherwise the whole of it, as if it had been terminated. */
  lemma {:induction false} AccumulateCut(full: Bytes, s: Bytes, size: nat)
    requires 2 <= size && LF !in s
    ensures
      if |full| + |s| <= MAX_LINE && Leftover(s, size) != [] then Accumulate(full, s, size) == LineOk(full + s, [])
      else Accumulate(full, s, size).LineErr?
    decreases |s|
  {
    assert FirstLf(s) == |s|;
    if |s| >= size {
      var j := FullLen(s, size);
      AccumulateCut(full + s[..j], s[j..], size);
      Regroup(full, s[..j], s[j..]);
      assert s[..j] + s[j..] == s;
    }
  }

  /** Whether the opening line of a frame, cut short, comes out of the line reader. */
  predicate CutLineRead(f: Frame, c: nat, size: nat)
    requires 2 <= size && c <= |Encode(f)|
  {
    c <= MAX_LINE && Leftover(Encode(f)[..c], size) != []
  }

  /** The cuts of a frame after which an interrupted read still reports a reply: the
      line reader hands over an unterminated line as if it were complete, unless the
      cut falls between two fragments. */
  predicate CutAccepted(f: Frame, c: nat, size: nat)
    requires 2 <= size && c <= |Encode(f)|
  {
    && 1 <= c && CutLineRead(f, c, size)
    && match f
       case SimpleFrame(_) => true
       case ErrorFrame(_) => true
       case IntFrame(n) => 1 + SignLen(FormatInt(n)) < c <= |Head(f)|
       case BulkFrame(_) => false
       case NullFrame => c == |Head(f)|
  }

  /** Leaving out digits at the end makes a positive number smaller. */
  lemma {:induction false} DigitsCutSmaller(n: nat, i: nat)
    requires 0 < i < |Digits(n)|
    ensures AllDigits(Digits(n)[..i]) && DecimalValue(Digits(n)[..i]) < n
  {
    var front := Digits(n / 10);
    assert Digits(n) == front + [ZERO + n % 10];
    if i == |front| {
      assert Digits(n)[..i] == front;
    } else {
      DigitsCutSmaller(n / 10, i);
      assert Digits(n)[..i] == front[..i];
    }
  }

  lemma CutIntParses(n: int, c: nat)
    requires -MAX_INT64 <= n <= MAX_INT64 && c < |FormatInt(n)|
    ensures ParsedInt(FormatInt(n)[..c]).IntOk? <==> SignLen(FormatInt(n)) < c
    ensures ParsedInt(FormatInt(n)[..c]).IntOk? ==> ParsedInt(FormatInt(n)[..c]).n != n
  {
    var b := FormatInt(n);
    var ds := Digits(if n < 0 then -n else n);
    var sg := SignLen(b);
    assert b[sg..] == ds;
    if sg < c {
      assert SignLen(b[..c]) == sg;
      assert b[..c][sg..] == ds[..c - sg];
      DigitsCutSmaller(if n < 0 then -n else n, c - sg);
    }
    ParseIntExact(b[..c]);
  }

  lemma CrIsNoDigit(b: Bytes)
    requires b != []
    ensures ParsedInt(b + [CR]).IntErr?
  {
    var t := b + [CR];
    ParseIntExact(t);
    assert t[SignLen(t)..][|t| - SignLen(t) - 1] == CR;
  }

  /** The rest of the opening line up to a cut, which may let the CR through. */
  function CutLabel(f: Frame, c: nat): Bytes
    requires 1 <= c <= |Head(f)| + 1
  {
    if c <= |Head(f)| then Label(f)[..c - 1] else Label(f) + [CR]
  }

  lemma CutLine(f: Frame, c: nat)
    requires WellFormed(f) && 1 <= c <= |Head(f)| + 1
    ensures Encode(f)[..c] == [Mark(f)] + CutLabel(f, c) && LF !in Encode(f)[..c]
  {
    HeadFits(f);
    assert Encode(f)[..c] == (Head(f) + [CR])[..c];
  }

  lemma CutHead(f: Frame, c: nat, size: nat)
    requires WellFormed(f) && 2 <= size <= MAX_LINE && 1 <= c <= |Head(f)| + 1
    ensures
      if CutLineRead(f, c, size) then ReplyOf(Encode(f)[..c], size) == ReplyFor(Mark(f), CutLabel(f, c), [])
      else ReplyOf(Encode(f)[..c], size).ReplyErr?
  {
    CutLine(f, c);
    var line := Encode(f)[..c];
    LineFromNothing(line, size);
    AccumulateCut([], line, size);
    assert [] + line == line;
    if CutLineRead(f, c, size) {
      ReplyOfOpening(line, size, Mark(f), CutLabel(f, c), []);
    }
  }

  lemma CutIntReply(n: int, c: nat, size: nat)
    requires WellFormed(IntFrame(n)) && 2 <= size <= MAX_LINE && 1 <= c <= |Head(IntFrame(n))| + 1
    ensures
      var f := IntFrame(n);
      var r := ReplyOf(Encode(f)[..c], size);
      && (r.ReplyOk? <==> CutAccepted(f, c, size))
      && (r.ReplyOk? ==> r.rest == [] && (r.v == Meaning(f) <==> c == |Head(f)|))
  {
    var f := IntFrame(n);
    CutHead(f, c, size);
    if c < |Head(f)| {
      CutIntParses(n, c - 1);
    } else if c == |Head(f)| {
      assert Label(f)[..c - 1] == FormatInt(n);
      ParseInvertsFormat(n);
    } else {
      CrIsNoDigit(FormatInt(n));
    }
  }

  /** The integer in a cut length header: none, or one that is not negative. */
  lemma CutLength(n: nat, c: nat)
    requires n <= MAX_INT64 && c <= |FormatInt(n)|
    ensures ParsedInt(FormatInt(n)[..c]).IntOk? ==> ParsedInt(FormatInt(n)[..c]).n >= 0
  {
    ParseIntExact(FormatInt(n)[..c]);
  }

  lemma CutBulkLabel(p: Bytes, c: nat)
    requires |p| <= MAX_BULK && 1 <= c <= |Head(BulkFrame(p))| + 1
    ensures
      var n := ParsedInt(CutLabel(BulkFrame(p), c));
      n.IntOk? ==> n.n >= 0
  {
    if c <= |Head(BulkFrame(p))| {
      CutLength(|p|, c - 1);
    } else {
      CrIsNoDigit(FormatInt(|p|));
    }
  }

  /** A length header with nothing behind it yields no payload. */
  lemma BulkWithoutBody(text: Bytes)
    requires ParsedInt(text).IntOk? ==> ParsedInt(text).n >= 0
    ensures ReplyFor(DOLLAR, text, []).ReplyErr?
  {
  }

  lemma CutBulkHead(p: Bytes, c: nat, size: nat)
    requires |p| <= MAX_BULK && 2 <= size <= MAX_LINE && 1 <= c <= |Head(BulkFrame(p))| + 1
    ensures ReplyOf(Encode(BulkFrame(p))[..c], size).ReplyErr?
  {
    var f := BulkFrame(p);
    CutHead(f, c, size);
    CutBulkLabel(p, c);
    BulkWithoutBody(CutLabel(f, c));
  }

  lemma CutNull(c: nat, size: nat)
    requires 2 <= size <= MAX_LINE && 1 <= c <= |Head(NullFrame)| + 1
    ensures
      var r := ReplyOf(Encode(NullFrame)[..c], size);
      && (r.ReplyOk? <==> CutAccepted(NullFrame, c, size))
      && (r.ReplyOk? ==> r.rest == [] && r.v == NilReply)
  {
    CutHead(NullFrame, c, size);
    assert FormatInt(-1) == [MINUS, ZERO + 1];
    if c < |Head(NullFrame)| {
      CutIntParses(-1, c - 1);
    } else if c == |Head(NullFrame)| {
      assert Label(NullFrame)[..c - 1] == FormatInt(-1);
      ParseInvertsFormat(-1);
    } else {
      CrIsNoDigit(FormatInt(-1));
    }
  }

  lemma CutBulkBody(p: Bytes, c: nat, size: nat)
    requires |p| <= MAX_BULK && 2 <= size <= MAX_LINE
    requires |Head(BulkFrame(p))| + 2 <= c < |Encode(BulkFrame(p))|
    ensures ReplyOf(Encode(BulkFrame(p))[..c], size).ReplyErr?
  {
    var f := BulkFrame(p);
    var opening := Head(f) + CRLF;
    var body := Body(f)[..c - |opening|];
    TakePast(opening, Body(f), c);
    BulkLineReply(p, body, size);
  }

  lemma CutTextReply(f: Frame, c: nat, size: nat)
    requires WellFormed(f) && (f.SimpleFrame? || f.ErrorFrame?)
    requires 2 <= size <= MAX_LINE && 1 <= c <= |Head(f)| + 1
    ensures
      var r := ReplyOf(Encode(f)[..c], size);
      && (r.ReplyOk? <==> CutAccepted(f, c, size))
      && (r.ReplyOk? ==> r.rest == [] && (r.v == Meaning(f) <==> c == |Head(f)|))
  {
    CutHead(f, c, size);
    assert |CutLabel(f, c)| == c - 1;
    assert CutLabel(f, c) == f.s <==> c == |f.s| + 1;
  }

  /** What a read that is interrupted inside a reply reports, for every reply, every
      cut and every buffer: exactly when it still succeeds, and that its value is then
      wrong unless exactly the opening line had arrived. */
  lemma {:induction false} CutReplyExact(f: Frame, c: nat, size: nat)
    requires WellFormed(f) && 2 <= size <= MAX_LINE && c < |Encode(f)|
    ensures
      var r := ReplyOf(Encode(f)[..c], size);
      && (r.ReplyOk? <==> CutAccepted(f, c, size))
      && (r.ReplyOk? ==> r.rest == [] && (r.v == Meaning(f) <==> c == |Head(f)|))
  {
    if c == 0 {
    } else if c > |Head(f)| + 1 {
      CutBulkBody(f.p, c, size);
    } else {
      match f {
        case IntFrame(n) => CutIntReply(n, c, size);
        case NullFrame => CutNull(c, size);
        case BulkFrame(p) => CutBulkHead(p, c, size);
        case _ => CutTextReply(f, c, size);
      }
    }
  }

  /** A stray line terminator in front of whatever follows is never read as a reply. */
  lemma StrayTerminatorFails(x: Bytes, c: nat, size: nat)
    requires 2 <= size && c <= |x| + 2
    ensures ReplyOf((CRLF + x)[..c], size).ReplyErr?
  {
    var s := (CRLF + x)[..c];
    if c == 1 {
      assert s == [CR];
    } else if c > 1 {
      assert s[0] == CR && s[1] == LF;
      assert FirstLf(s) == 1;
    }
  }

  /** For an opening line without a CR, as servers send them: a cut inside a simple
      string or an error is accepted unless it falls on a multiple of the buffer size. */
  lemma {:induction false} PlainCutAccepted(f: Frame, c: nat, size: nat)
    requires WellFormed(f) && (f.SimpleFrame? || f.ErrorFrame?) && CR !in f.s
    requires 2 <= size && 1 <= c <= |Head(f)|
    ensures CutAccepted(f, c, size) <==> c % size != 0
  {
    HeadFits(f);
    var line := Encode(f)[..c];
    assert line == Head(f)[..c];
    assert CR !in line;
    LeftoverPlain(line, size, c / size, c % size);
  }

  lemma DigitsOf1234()
    ensures Digits(1234) == [ZERO + 1, ZERO + 2, ZERO + 3, ZERO + 4]
  {
    assert Digits(12) == [ZERO + 1, ZERO + 2];
    assert Digits(123) == [ZERO + 1, ZERO + 2, ZERO + 3];
  }

  /** A server that answers 1234 and is cut off after two digits is reported to
      have answered 12. */
  lemma {:induction false} CutReplyExample()
    ensures ReplyOf([COLON, ZERO + 1, ZERO + 2], 4096) == ReplyOk(IntReply(12), [])
    ensures [COLON, ZERO + 1, ZERO + 2] < Encode(IntFrame(1234))
  {
    var line := [COLON, ZERO + 1, ZERO + 2];
    assert Digits(12) == [ZERO + 1, ZERO + 2];
    assert FirstLf(line) == 3;
    assert line == [COLON] + FormatInt(12);
    ReplyOfOpening(line, 4096, COLON, FormatInt(12), []);
    ParseInvertsFormat(12);
    DigitsOf1234();
  }
}
