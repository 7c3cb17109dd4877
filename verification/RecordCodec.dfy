/** The canonical one-line text of a journal record, and the reader that accepts nothing else. */
module RecordCodec {
  import opened Wrappers
  import opened Journal

  const MAX_FILE := 512
  const UINT64 := 0x1_0000_0000_0000_0000
  const UINT32 := 0x1_0000_0000

  /** What the record's Go fields can hold. */
  predicate InRange(r: Record) {
    r.identity.device < UINT64 && r.identity.inode < UINT64 && r.owner < UINT32
  }

  // ---- Decimal numbers ---------------------------------------------------------------------

  predicate IsDigit(c: char) { '0' <= c <= '9' }

  predicate AllDigits(s: string) { forall c <- s :: IsDigit(c) }

  function DigitChar(d: nat): (c: char)
    requires d < 10
    ensures IsDigit(c) && DigitValue(c) == d
  {
    '0' + d as char
  }

  function DigitValue(c: char): (d: nat)
    requires IsDigit(c)
    ensures d < 10
  {
    (c - '0') as nat
  }

  function Decimal(n: nat): (s: string)
    ensures s != "" && AllDigits(s)
  {
    if n < 10 then [DigitChar(n)] else Decimal(n / 10) + [DigitChar(n % 10)]
  }

  function Value(s: string): nat
    requires AllDigits(s)
  {
    if s == "" then 0 else 10 * Value(s[..|s| - 1]) + DigitValue(s[|s| - 1])
  }

  /** No leading zero. */
  predicate CanonicalNumber(s: string) {
    s != "" && AllDigits(s) && (|s| > 1 ==> s[0] != '0')
  }

  lemma {:induction false} DecimalCanonical(n: nat)
    ensures CanonicalNumber(Decimal(n)) && Value(Decimal(n)) == n
    ensures n > 0 ==> Decimal(n)[0] != '0'
  {
    if n >= 10 {
      DecimalCanonical(n / 10);
      var s := Decimal(n);
      assert s[..|s| - 1] == Decimal(n / 10);
    }
  }

  lemma AppendDigit(v: nat, c: char)
    requires IsDigit(c)
    ensures var n := 10 * v + DigitValue(c); n / 10 == v && DigitChar(n % 10) == c
  {
  }

  lemma {:induction false} CanonicalIsDecimal(s: string)
    requires CanonicalNumber(s)
    ensures Decimal(Value(s)) == s
    ensures |s| > 1 ==> Value(s) >= 10
  {
    var t, c := s[..|s| - 1], s[|s| - 1];
    assert s == t + [c];
    AppendDigit(Value(t), c);
    if |s| == 1 {
      assert t == "";
    } else {
      assert t[0] == s[0];
      CanonicalIsDecimal(t);
      if |t| == 1 {
        assert t[..0] == "" && DigitValue(t[0]) > 0;
      }
    }
  }

  function Pow10(k: nat): (p: nat)
    ensures p > 0
  {
    if k == 0 then 1 else 10 * Pow10(k - 1)
  }

  lemma {:induction false} DecimalLength(n: nat, k: nat)
    requires k > 0 && n < Pow10(k)
    ensures |Decimal(n)| <= k
  {
    if n >= 10 {
      DecimalLength(n / 10, k - 1);
    }
  }

  // ---- Reading -----------------------------------------------------------------------------

  function Expect(literal: string, s: string): (rest: Option<string>)
    ensures rest.Some? <==> literal <= s
    ensures rest.Some? ==> s == literal + rest.value
  {
    if literal <= s then Some(s[|literal|..]) else None
  }

  function LeadingDigits(s: string): (n: nat)
    ensures n <= |s| && AllDigits(s[..n])
    ensures n < |s| ==> !IsDigit(s[n])
  {
    if s == "" || !IsDigit(s[0]) then 0
    else
      var n := 1 + LeadingDigits(s[1..]);
      assert s[..n] == [s[0]] + s[1..][..n - 1];
      n
  }

  /** The longest run of digits, if it is canonical and within range. */
  function Number(s: string, bound: nat): (r: Option<(nat, string)>)
    ensures r.Some? ==> s == Decimal(r.value.0) + r.value.1 && r.value.0 < bound
  {
    var n := LeadingDigits(s);
    if CanonicalNumber(s[..n]) && Value(s[..n]) < bound then
      CanonicalIsDecimal(s[..n]);
      Some((Value(s[..n]), s[n..]))
    else None
  }

  lemma NumberReadsDecimal(n: nat, rest: string, bound: nat)
    requires n < bound && (rest == "" || !IsDigit(rest[0]))
    ensures Number(Decimal(n) + rest, bound) == Some((n, rest))
  {
    var d := Decimal(n);
    DigitsEnd(d, rest);
    DecimalCanonical(n);
    assert (d + rest)[..|d|] == d && (d + rest)[|d|..] == rest;
  }

  lemma {:induction false} DigitsEnd(d: string, rest: string)
    requires AllDigits(d) && (rest == "" || !IsDigit(rest[0]))
    ensures LeadingDigits(d + rest) == |d|
  {
    if d == "" {
      assert d + rest == rest;
    } else {
      assert (d + rest)[1..] == d[1..] + rest;
      DigitsEnd(d[1..], rest);
    }
  }

  // ---- The record --------------------------------------------------------------------------

  const DEVICE := "{\"version\":1,\"identity\":{\"Device\":"
  const INODE := ",\"Inode\":"
  const OWNER := "},\"owner\":"

  function DirectionText(d: Direction): string {
    if d.Apply? then ",\"direction\":\"apply\"" else ",\"direction\":\"rollback\""
  }

  function PhaseText(p: Phase): string {
    if p.Pending? then ",\"phase\":\"pending\"}\n" else ",\"phase\":\"done\"}\n"
  }

  function TailText(owner: nat, d: Direction, p: Phase): string {
    OWNER + (Decimal(owner) + (DirectionText(d) + PhaseText(p)))
  }

  /** The bytes written for a record: canonical JSON and a newline. */
  function Print(r: Record): string {
    DEVICE + (Decimal(r.identity.device) + (INODE + (Decimal(r.identity.inode) +
      TailText(r.owner, r.direction, r.phase))))
  }

  function ReadDirection(s: string): (r: Option<(Direction, string)>)
    ensures r.Some? ==> s == DirectionText(r.value.0) + r.value.1
  {
    if Expect(DirectionText(Apply), s).Some? then Some((Apply, Expect(DirectionText(Apply), s).value))
    else
      var rest :- Expect(DirectionText(Rollback), s);
      Some((Rollback, rest))
  }

  function ReadPhase(s: string): (r: Option<Phase>)
    ensures r.Some? ==> s == PhaseText(r.value)
  {
    if s == PhaseText(Pending) then Some(Pending) else if s == PhaseText(Done) then Some(Done) else None
  }

  /** A literal, then a number. */
  function Labelled(literal: string, s: string, bound: nat): (r: Option<(nat, string)>)
    ensures r.Some? ==> s == literal + (Decimal(r.value.0) + r.value.1) && r.value.0 < bound
  {
    var rest :- Expect(literal, s);
    Number(rest, bound)
  }

  function ReadTail(s: string): (r: Option<(nat, Direction, Phase)>)
    ensures r.Some? ==> s == TailText(r.value.0, r.value.1, r.value.2) && r.value.0 < UINT32
  {
    var (owner, s) :- Labelled(OWNER, s, UINT32);
    var (direction, s) :- ReadDirection(s);
    var phase :- ReadPhase(s);
    Some((owner, direction, phase))
  }

  /** What the reader accepts: at most 512 bytes of exactly this form. */
  function Read(b: string): (r: Option<Record>)
    ensures r.Some? ==> InRange(r.value) && b == Print(r.value)
  {
    if |b| > MAX_FILE then None
    else
      var (device, s) :- Labelled(DEVICE, b, UINT64);
      var (inode, s) :- Labelled(INODE, s, UINT64);
      var (owner, direction, phase) :- ReadTail(s);
      Some(Record(Identity(device, inode), owner, direction, phase))
  }

  /** Every record the transaction can write fits in the reader's limit. */
  lemma PrintFits(r: Record)
    requires InRange(r)
    ensures |Print(r)| <= MAX_FILE
  {
    assert Pow10(10) == 10_000_000_000 && Pow10(20) == Pow10(10) * 10_000_000_000 by {
      Pow10Twenty();
    }
    DecimalLength(r.identity.device, 20);
    DecimalLength(r.identity.inode, 20);
    DecimalLength(r.owner, 10);
  }

  lemma Pow10Twenty()
    ensures Pow10(10) == 10_000_000_000 && Pow10(20) == Pow10(10) * 10_000_000_000
  {
    assert Pow10(5) == 100_000;
    assert Pow10(10) == 100_000 * Pow10(5);
    assert Pow10(15) == 100_000 * Pow10(10);
    assert Pow10(20) == 100_000 * Pow10(15);
  }

  /** Round trip, and uniqueness: a byte string is accepted as `r` exactly when it is the printed form of `r`. */
  lemma ReadIffPrinted(b: string, r: Record)
    ensures Read(b) == Some(r) <==> InRange(r) && b == Print(r)
  {
    if InRange(r) && b == Print(r) {
      PrintFits(r);
      var tail := TailText(r.owner, r.direction, r.phase);
      ReadsTail(r.owner, r.direction, r.phase);
      LabelledReads(INODE, r.identity.inode, tail, UINT64);
      LabelledReads(DEVICE, r.identity.device, INODE + (Decimal(r.identity.inode) + tail), UINT64);
    }
  }

  /** The records a file can hold: those whose numbers fit 64 bits, and the owner 32. */
  lemma ReadableIff(r: Record)
    ensures (exists b :: Read(b) == Some(r)) <==>
            && r.identity.device <= 18446744073709551615 && r.identity.inode <= 18446744073709551615
            && r.owner <= 4294967295
  {
    hide Read, Print;
    ReadIffPrinted(Print(r), r);
    forall b | Read(b) == Some(r)
      ensures InRange(r)
    {
      ReadIffPrinted(b, r);
    }
  }

  lemma LabelledReads(literal: string, n: nat, rest: string, bound: nat)
    requires n < bound && (rest == "" || !IsDigit(rest[0]))
    ensures Labelled(literal, literal + (Decimal(n) + rest), bound) == Some((n, rest))
  {
    var s := literal + (Decimal(n) + rest);
    assert s[|literal|..] == Decimal(n) + rest;
    NumberReadsDecimal(n, rest, bound);
  }

  lemma ReadsTail(owner: nat, d: Direction, p: Phase)
    requires owner < UINT32
    ensures ReadTail(TailText(owner, d, p)) == Some((owner, d, p))
    ensures TailText(owner, d, p)[0] == '}'
  {
    ReadsDirection(d, p);
    LabelledReads(OWNER, owner, DirectionText(d) + PhaseText(p), UINT32);
  }

  lemma ReadsDirection(d: Direction, p: Phase)
    ensures ReadDirection(DirectionText(d) + PhaseText(p)) == Some((d, PhaseText(p)))
    ensures ReadPhase(PhaseText(p)) == Some(p)
  {
    var s := DirectionText(d) + PhaseText(p);
    assert DirectionText(Apply)[14] != DirectionText(Rollback)[14];
    assert PhaseText(Pending)[10] != PhaseText(Done)[10];
    if d.Rollback? {
      assert s[14] == DirectionText(Rollback)[14];
    }
  }

  /** A torn file never reads as a record: no proper prefix of a written record is accepted. */
  lemma ProperPrefixRefused(r: Record, k: nat)
    requires InRange(r) && k < |Print(r)|
    ensures Read(Print(r)[..k]).None?
  {
    var b := Print(r)[..k];
    OneNewline(r);
    if Read(b).Some? {
      OneNewline(Read(b).value);
      assert false;
    }
  }

  predicate NewlineOnlyLast(s: string) {
    s != "" && s[|s| - 1] == '\n' && '\n' !in s[..|s| - 1]
  }

  lemma OneNewline(r: Record)
    ensures NewlineOnlyLast(Print(r))
  {
    TailNewline(r.owner, r.direction, r.phase);
    var tail := TailText(r.owner, r.direction, r.phase);
    PrefixNewline(Decimal(r.identity.inode), tail);
    PrefixNewline(INODE, Decimal(r.identity.inode) + tail);
    var s3 := INODE + (Decimal(r.identity.inode) + tail);
    PrefixNewline(Decimal(r.identity.device), s3);
    PrefixNewline(DEVICE, Decimal(r.identity.device) + s3);
  }

  lemma TailNewline(owner: nat, d: Direction, p: Phase)
    ensures NewlineOnlyLast(TailText(owner, d, p))
  {
    assert NewlineOnlyLast(PhaseText(p));
    var s6 := DirectionText(d) + PhaseText(p);
    PrefixNewline(DirectionText(d), PhaseText(p));
    PrefixNewline(Decimal(owner), s6);
    PrefixNewline(OWNER, Decimal(owner) + s6);
  }

  lemma PrefixNewline(a: string, s: string)
    requires '\n' !in a && NewlineOnlyLast(s)
    ensures NewlineOnlyLast(a + s)
  {
    assert (a + s)[..|a + s| - 1] == a + s[..|s| - 1];
  }

  /** The four kinds of line, character by character. */
  lemma KnownLines()
    ensures Read("{\"version\":1,\"identity\":{\"Device\":" + ("7" + (",\"Inode\":" + ("42" +
                   ("},\"owner\":" + ("1000" + (",\"direction\":\"apply\"" + ",\"phase\":\"pending\"}\n")))))))
            == Some(Record(Identity(7, 42), 1000, Apply, Pending))
    ensures Read("{\"version\":1,\"identity\":{\"Device\":" + ("7" + (",\"Inode\":" + ("42" +
                   ("},\"owner\":" + ("1000" + (",\"direction\":\"apply\"" + ",\"phase\":\"done\"}\n")))))))
            == Some(Record(Identity(7, 42), 1000, Apply, Done))
    ensures Read("{\"version\":1,\"identity\":{\"Device\":" + ("7" + (",\"Inode\":" + ("42" +
                   ("},\"owner\":" + ("1000" + (",\"direction\":\"rollback\"" + ",\"phase\":\"pending\"}\n")))))))
            == Some(Record(Identity(7, 42), 1000, Rollback, Pending))
    ensures Read("{\"version\":1,\"identity\":{\"Device\":" + ("7" + (",\"Inode\":" + ("42" +
                   ("},\"owner\":" + ("1000" + (",\"direction\":\"rollback\"" + ",\"phase\":\"done\"}\n")))))))
            == Some(Record(Identity(7, 42), 1000, Rollback, Done))
  {
    hide Read, Decimal;
    KnownDecimals();
    var id := Identity(7, 42);
    ReadIffPrinted(Print(Record(id, 1000, Apply, Pending)), Record(id, 1000, Apply, Pending));
    ReadIffPrinted(Print(Record(id, 1000, Apply, Done)), Record(id, 1000, Apply, Done));
    ReadIffPrinted(Print(Record(id, 1000, Rollback, Pending)), Record(id, 1000, Rollback, Pending));
    ReadIffPrinted(Print(Record(id, 1000, Rollback, Done)), Record(id, 1000, Rollback, Done));
  }

  lemma KnownDecimals()
    ensures Decimal(0) == "0" && Decimal(7) == "7" && Decimal(42) == "42" && Decimal(1000) == "1000"
    ensures Decimal(98765) == "98765"
  {
    assert Decimal(9) == "9" && Decimal(98) == "98" && Decimal(987) == "987" && Decimal(9876) == "9876";
    assert Decimal(1) == "1" && Decimal(10) == "10" && Decimal(100) == "100";
  }
}
