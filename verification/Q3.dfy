/** Three-bit codes packed across byte boundaries, and the quantizer that produces them. */
module Q3 {
  import opened Common

  type Half = x: nat | x < 0x1_0000

  const GROUP: nat := 64
  const GROUP_BYTES: nat := 28
  const PAYLOAD: nat := 24

  /** The 16-bit float format of the metadata: `round` may be any rounding, `value` is None when not finite. */
  datatype Format = Format(round: real -> Half, value: Half -> Option<real>)

  // ---------- bits as arithmetic ----------

  /** n bits to the right. */
  function Shift(x: nat, n: nat): nat {
    if n == 0 then x else Shift(x / 2, n - 1)
  }

  function Or(a: nat, b: nat): nat
    decreases a + b
  {
    if a == 0 && b == 0 then 0
    else (if a % 2 == 1 || b % 2 == 1 then 1 else 0) + 2 * Or(a / 2, b / 2)
  }

  lemma {:induction false} OrZero(a: nat)
    ensures Or(a, 0) == a && Or(0, a) == a
    decreases a
  {
    if a > 0 {
      OrZero(a / 2);
    }
  }

  /** Disjoint bits: `a` below bit `n`, `b` from bit `n` on. */
  lemma {:induction false} OrDisjoint(a: nat, b: nat, n: nat)
    requires a < Pow2(n)
    ensures Or(a, b * Pow2(n)) == a + b * Pow2(n)
    decreases n
  {
    if n == 0 {
      OrZero(b);
    } else {
      var m := Pow2(n - 1);
      assert b * Pow2(n) == 2 * (b * m);
      OrDisjoint(a / 2, b, n - 1);
      assert (b * Pow2(n)) / 2 == b * m && (b * Pow2(n)) % 2 == 0;
      OrStep(a, 2 * (b * m));
    }
  }

  lemma OrStep(a: nat, b: nat)
    requires b % 2 == 0
    ensures Or(a, b) == a % 2 + 2 * Or(a / 2, b / 2)
  {
  }

  lemma {:induction false} ShiftAdd(x: nat, m: nat, n: nat)
    ensures Shift(x, m + n) == Shift(Shift(x, m), n)
    decreases m
  {
    if m > 0 {
      ShiftAdd(x / 2, m - 1, n);
    }
  }

  lemma ShiftByte(x: nat)
    ensures Shift(x, 8) == x / 256
    ensures Shift(x, 3) == x / 8
  {
    ShiftAdd(x, 4, 4);
    assert Shift(x, 4) == x / 16 by { ShiftFour(x); }
    ShiftFour(Shift(x, 4));
    assert Shift(x, 3) == Shift(x / 2, 2) == Shift(x / 4, 1);
  }

  lemma ShiftFour(x: nat)
    ensures Shift(x, 4) == x / 16
  {
    assert Shift(x, 4) == Shift(x / 2, 3) == Shift(x / 2 / 2, 2) == Shift(x / 2 / 2 / 2, 1) == x / 2 / 2 / 2 / 2;
  }

  // ---------- the number a group stands for ----------

  function Number(bytes: seq<Byte>): nat {
    if bytes == [] then 0 else bytes[0] + 256 * Number(bytes[1..])
  }

  ghost predicate AreCodes(codes: seq<nat>) {
    forall i :: 0 <= i < |codes| ==> codes[i] < 8
  }

  function Octal(codes: seq<nat>): nat {
    if codes == [] then 0 else codes[0] + 8 * Octal(codes[1..])
  }

  /** The j-th base-8 digit. */
  lemma {:induction false} OctalDigit(codes: seq<nat>, j: nat)
    requires AreCodes(codes) && j < |codes|
    ensures Shift(Octal(codes), 3 * j) % 8 == codes[j]
    decreases j
  {
    if j > 0 {
      var rest := codes[1..];
      OctalRest(codes);
      hide Octal;
      OctalDigit(rest, j - 1);
      ShiftAdd(Octal(codes), 3, 3 * (j - 1));
      ShiftByte(Octal(codes));
      hide Shift;
    } else {
      OctalRest(codes);
      hide Octal;
    }
  }

  lemma OctalRest(codes: seq<nat>)
    requires AreCodes(codes) && codes != []
    ensures Octal(codes) % 8 == codes[0] && Octal(codes) / 8 == Octal(codes[1..])
  {
    assert Octal(codes) == codes[0] + 8 * Octal(codes[1..]);
    hide Octal;
  }

  lemma {:induction false} DropBytes(bytes: seq<Byte>, k: nat)
    requires k <= |bytes|
    ensures Shift(Number(bytes), 8 * k) == Number(bytes[k..])
    decreases k
  {
    if k > 0 {
      DropBytes(bytes[1..], k - 1);
      ShiftAdd(Number(bytes), 8, 8 * (k - 1));
      ShiftByte(Number(bytes));
      assert Number(bytes) / 256 == Number(bytes[1..]);
      assert bytes[1..][k - 1..] == bytes[k..];
    } else {
      assert bytes[0..] == bytes;
    }
  }

  // ---------- reading one code ----------

  function High(b: Byte): nat {
    (b as nat) * 256
  }

  function Code(packed: seq<Byte>, index: nat): Result<nat> {
    if |packed| % GROUP_BYTES != 0 || index >= |packed| / GROUP_BYTES * GROUP then Err
    else
      var bit := index % GROUP * 3;
      var at := index / GROUP * GROUP_BYTES + bit / 8;
      var word := if bit % 8 > 5 then Or(packed[at], High(packed[at + 1])) else packed[at];
      Ok(Shift(word, bit % 8) % 8)
  }

  lemma Doubled(y: nat, m: nat)
    requires m > 0
    ensures y * Pow2(m) == 2 * (y * Pow2(m - 1))
  {
  }

  lemma ShiftPast(x: nat, half: nat, r: nat)
    requires r > 0
    ensures Shift(x + 2 * half, r) == Shift(x / 2 + half, r - 1)
    ensures Shift(x, r) == Shift(x / 2, r - 1)
  {
    assert (x + 2 * half) / 2 == x / 2 + half;
  }

  /** Bits at and above `m` do not reach a three-bit window that ends by bit `m`. */
  lemma {:induction false} WindowBelow(x: nat, y: nat, r: nat, m: nat)
    requires r + 3 <= m
    ensures Shift(x + y * Pow2(m), r) % 8 == Shift(x, r) % 8
    decreases r
  {
    Doubled(y, m);
    if r == 0 {
      Doubled(y, m - 1);
      Doubled(y, m - 2);
      EightApart(x, y * Pow2(m - 3));
    } else {
      ShiftPast(x, y * Pow2(m - 1), r);
      WindowBelow(x / 2, y, r - 1, m - 1);
    }
  }

  lemma EightApart(x: nat, e: nat)
    ensures (x + 2 * (2 * (2 * e))) % 8 == x % 8
  {
    var q := x / 8;
    assert x == 8 * q + x % 8;
    assert x + 2 * (2 * (2 * e)) == 8 * (q + e) + x % 8;
  }

  lemma Powers()
    ensures Pow2(0) == 1 && Pow2(1) == 2 && Pow2(2) == 4 && Pow2(3) == 8 && Pow2(4) == 16
    ensures Pow2(5) == 32 && Pow2(6) == 64 && Pow2(7) == 128 && Pow2(8) == 256 && Pow2(16) == 65536
  {
    assert Pow2(4) == 2 * Pow2(3);
    assert Pow2(8) == 2 * Pow2(7) == 4 * Pow2(6) == 8 * Pow2(5) == 16 * Pow2(4);
    assert Pow2(12) == 2 * Pow2(11) == 4 * Pow2(10) == 8 * Pow2(9) == 16 * Pow2(8);
    assert Pow2(16) == 2 * Pow2(15) == 4 * Pow2(14) == 8 * Pow2(13) == 16 * Pow2(12);
  }

  /** One or two bytes are enough to read three bits at `r`. */
  lemma WindowOf(bytes: seq<Byte>, r: nat)
    requires bytes != [] && r < 8 && (r > 5 ==> |bytes| > 1)
    ensures var word := if r > 5 then Or(bytes[0], High(bytes[1])) else bytes[0];
      Shift(word, r) % 8 == Shift(Number(bytes), r) % 8
  {
    Powers();
    if r > 5 {
      OrDisjoint(bytes[0], bytes[1], 8);
      assert bytes[1..][0] == bytes[1] && bytes[1..][1..] == bytes[2..];
      assert Number(bytes) == bytes[0] + High(bytes[1]) + Number(bytes[2..]) * 65536;
      WindowBelow((bytes[0] as nat) + High(bytes[1]), Number(bytes[2..]), r, 16);
    } else {
      WindowBelow(bytes[0], Number(bytes[1..]), r, 8);
    }
  }

  ghost function Payload(packed: seq<Byte>, group: nat): seq<Byte>
    requires |packed| % GROUP_BYTES == 0 && group < |packed| / GROUP_BYTES
  {
    packed[group * GROUP_BYTES..group * GROUP_BYTES + PAYLOAD]
  }

  /** Reading index i takes base-8 digit i mod 64 of the base-256 number in its group's payload. */
  lemma CodeIsDigit(packed: seq<Byte>, index: nat)
    requires |packed| % GROUP_BYTES == 0 && index < |packed| / GROUP_BYTES * GROUP
    ensures index / GROUP < |packed| / GROUP_BYTES
    ensures Code(packed, index) == Ok(Shift(Number(Payload(packed, index / GROUP)), 3 * (index % GROUP)) % 8)
  {
    var group, j := index / GROUP, index % GROUP;
    var payload := Payload(packed, group);
    var bit := j * 3;
    var k, r := bit / 8, bit % 8;
    DropBytes(payload, k);
    ShiftAdd(Number(payload), 8 * k, r);
    assert 8 * k + r == 3 * j;
    var tail := payload[k..];
    assert tail[0] == packed[group * GROUP_BYTES + k];
    if r > 5 {
      assert tail[1] == packed[group * GROUP_BYTES + k + 1];
    }
    WindowOf(tail, r);
  }

  // ---------- writing one code ----------

  lemma {:induction false} Pow2Add(m: nat, n: nat)
    ensures Pow2(m + n) == Pow2(m) * Pow2(n)
    decreases m
  {
    if m > 0 {
      Pow2Add(m - 1, n);
      assert Pow2(m + n) == 2 * Pow2(m - 1 + n);
    }
  }

  lemma {:induction false} OctalAppend(codes: seq<nat>, q: nat)
    ensures Octal(codes + [q]) == Octal(codes) + Pow2(3 * |codes|) * q
  {
    if codes == [] {
      assert codes + [q] == [q];
      assert Octal([q]) == q + 8 * Octal([]);
    } else {
      var rest := codes[1..];
      assert (codes + [q])[1..] == rest + [q];
      OctalAppend(rest, q);
      Powers();
      Pow2Add(3, 3 * |rest|);
      assert Pow2(3 * |codes|) == 8 * Pow2(3 * |rest|);
      assert 8 * (Pow2(3 * |rest|) * q) == Pow2(3 * |codes|) * q;
    }
  }

  lemma NextWeight(k: nat, x: int)
    ensures Pow2(8 * (k + 1)) * x == 256 * (Pow2(8 * k) * x)
  {
    Powers();
    Pow2Add(8, 8 * k);
    assert 8 * (k + 1) == 8 + 8 * k;
  }

  lemma {:induction false} NumberUpdate(bytes: seq<Byte>, k: nat, v: Byte)
    requires k < |bytes|
    ensures Number(bytes[k := v]) == Number(bytes) + Pow2(8 * k) * (v - bytes[k])
  {
    if k > 0 {
      var rest := bytes[1..];
      assert bytes[k := v][1..] == rest[k - 1 := v];
      NumberUpdate(rest, k - 1, v);
      NextWeight(k - 1, v - bytes[k]);
      hide Pow2;
    } else {
      assert bytes[0 := v][1..] == bytes[1..];
    }
  }

  /** How much of a code at bit `r` lands in its first byte, and how much spills over. */
  lemma CodeSplits(q: nat, r: nat)
    requires q < 8 && r < 8
    ensures q * Pow2(r) % 256 == (if r <= 5 then q else if r == 6 then q % 4 else q % 2) * Pow2(r)
    ensures q * Pow2(r) / 256 == if r <= 5 then 0 else if r == 6 then q / 4 else q / 2
    ensures r > 5 ==> q * Pow2(r) / 256 == q / Pow2(8 - r) < Pow2(r - 5)
  {
    Powers();
    if r == 0 {
    } else if r == 1 {
    } else if r == 2 {
    } else if r == 3 {
    } else if r == 4 {
    } else if r == 5 {
    } else if r == 6 {
    }
  }

  lemma FitsBelow(held: nat, c: nat, r: nat)
    requires r < 8 && held < Pow2(r) && c < 8
    requires r == 6 ==> c < 4
    requires r == 7 ==> c < 2
    ensures held + c * Pow2(r) < 256
    ensures r <= 5 ==> held + c * Pow2(r) < Pow2(r + 3)
  {
    Powers();
    if r == 0 {
    } else if r == 1 {
    } else if r == 2 {
    } else if r == 3 {
    } else if r == 4 {
    } else if r == 5 {
    } else if r == 6 {
    }
  }

  /** The first byte keeps what it held below bit `r` and takes the low bits; the rest spill over. */
  lemma SplitCode(held: nat, q: nat, r: nat)
    requires q < 8 && r < 8 && held < Pow2(r)
    ensures Or(held, q * Pow2(r) % 256) == held + q * Pow2(r) % 256 < 256
    ensures r <= 5 ==> q * Pow2(r) < 256 && held + q * Pow2(r) < Pow2(r + 3)
    ensures r > 5 ==> q * Pow2(r) / 256 == q / Pow2(8 - r) < Pow2(r - 5)
  {
    CodeSplits(q, r);
    var c := if r <= 5 then q else if r == 6 then q % 4 else q % 2;
    FitsBelow(held, c, r);
    OrDisjoint(held, c, r);
  }

  /** 24 bytes holding exactly the codes so far, in bits below 3 * |codes|. */
  ghost predicate Holds(payload: seq<Byte>, codes: seq<nat>) {
    && |payload| == PAYLOAD && |codes| <= GROUP && AreCodes(codes)
    && Number(payload) == Octal(codes)
    && (forall i :: 3 * |codes| / 8 < i < PAYLOAD ==> payload[i] == 0)
    && (3 * |codes| / 8 < PAYLOAD ==> payload[3 * |codes| / 8] < Pow2(3 * |codes| % 8))
  }

  /** A byte with the low bits of a code in place from bit `r` on. */
  function LowPart(held: Byte, q: nat, r: nat): Byte
    requires r < 8 && q < 8 && held < Pow2(r)
  {
    SplitCode(held, q, r);
    Or(held, q * Pow2(r) % 256)
  }

  /** The next byte with the bits of the code that spill over. */
  function HighPart(held: Byte, q: nat, r: nat): Byte
    requires 5 < r < 8 && q < 8 && held == 0
  {
    SpillIsByte(q, r);
    OrZero(q / Pow2(8 - r));
    Or(held, q / Pow2(8 - r))
  }

  /** OR a code in at bit `r` of byte `k`, over zero bits. */
  function PutAt(payload: seq<Byte>, k: nat, r: nat, q: nat): (p: seq<Byte>)
    requires k < |payload| && r < 8 && q < 8 && payload[k] < Pow2(r)
    requires r > 5 ==> k + 1 < |payload| && payload[k + 1] == 0
    ensures |p| == |payload|
  {
    var first := payload[k := LowPart(payload[k], q, r)];
    if r > 5 then first[k + 1 := HighPart(first[k + 1], q, r)] else first
  }

  function Put(payload: seq<Byte>, j: nat, q: nat): (r: seq<Byte>)
    requires |payload| == PAYLOAD && j < GROUP && q < 8
    requires payload[3 * j / 8] < Pow2(3 * j % 8)
    requires 3 * j % 8 > 5 ==> payload[3 * j / 8 + 1] == 0
    ensures |r| == PAYLOAD
  {
    PutAt(payload, 3 * j / 8, 3 * j % 8, q)
  }

  lemma Spread(w: nat, p: nat, low: nat, high: nat, q: nat)
    requires q * p == low + 256 * high
    ensures w * low + w * 256 * high == w * p * q
  {
    assert w * (low + 256 * high) == w * low + w * (256 * high);
    assert w * (256 * high) == w * 256 * high;
    assert w * (q * p) == w * p * q;
  }

  /** Adding the low part at one byte and the spill at the next adds the whole code at its bit. */
  lemma WeightsAdd(k: nat, r: nat, low: nat, high: nat, q: nat)
    requires q * Pow2(r) == low + 256 * high
    ensures Pow2(8 * k) * low + Pow2(8 * (k + 1)) * high == Pow2(8 * k + r) * q
  {
    Powers();
    Pow2Add(8 * k, r);
    Pow2Add(8 * k, 8);
    assert 8 * (k + 1) == 8 * k + 8;
    Spread(Pow2(8 * k), Pow2(r), low, high, q);
  }

  lemma NumberAdd(bytes: seq<Byte>, k: nat, v: Byte, more: nat)
    requires k < |bytes| && v == bytes[k] + more
    ensures Number(bytes[k := v]) == Number(bytes) + Pow2(8 * k) * more
  {
    NumberUpdate(bytes, k, v);
    assert v - bytes[k] == more;
  }

  /** Two bytes updated in place of ones whose values are known. */
  lemma NumberUpdateTwo(bytes: seq<Byte>, k: nat, first: Byte, second: Byte, low: nat, high: nat)
    requires k + 1 < |bytes| && first == bytes[k] + low && bytes[k + 1] == 0 && second == high
    ensures Number(bytes[k := first][k + 1 := second]) == Number(bytes) + Pow2(8 * k) * low + Pow2(8 * (k + 1)) * high
  {
    hide *;
    NumberAdd(bytes, k, first, low);
    NumberAdd(bytes[k := first], k + 1, second, high);
  }

  lemma LowPartIs(held: Byte, q: nat, r: nat)
    requires r <= 5 && q < 8 && held < Pow2(r)
    ensures LowPart(held, q, r) == held + q * Pow2(r)
  {
    SplitCode(held, q, r);
    NoSpill(q, r);
  }

  lemma PutLowAdds(payload: seq<Byte>, k: nat, r: nat, q: nat)
    requires k < |payload| && r <= 5 && q < 8 && payload[k] < Pow2(r)
    ensures Number(PutAt(payload, k, r, q)) == Number(payload) + Pow2(8 * k + r) * q
  {
    assert PutAt(payload, k, r, q) == payload[k := LowPart(payload[k], q, r)];
    hide *;
    LowPartIs(payload[k], q, r);
    var low := q * Pow2(r);
    NumberAdd(payload, k, LowPart(payload[k], q, r), low);
    WeightsAdd(k, r, low, 0, q);
  }

  lemma PutHighAdds(payload: seq<Byte>, k: nat, r: nat, q: nat)
    requires k + 1 < |payload| && 5 < r < 8 && q < 8 && payload[k] < Pow2(r) && payload[k + 1] == 0
    ensures Number(PutAt(payload, k, r, q)) == Number(payload) + Pow2(8 * k + r) * q
  {
    var low, high := q * Pow2(r) % 256, q * Pow2(r) / 256;
    PartsAre(payload[k], q, r);
    assert PutAt(payload, k, r, q) == payload[k := LowPart(payload[k], q, r)][k + 1 := HighPart(0, q, r)];
    hide *;
    WeightsAdd(k, r, low, high, q);
    NumberUpdateTwo(payload, k, LowPart(payload[k], q, r), HighPart(0, q, r), low, high);
  }

  /** Where a code spills over, its two parts make up the code at its bit. */
  lemma PartsAre(held: Byte, q: nat, r: nat)
    requires 5 < r < 8 && q < 8 && held < Pow2(r)
    ensures var low, high := q * Pow2(r) % 256, q * Pow2(r) / 256;
      && q * Pow2(r) == low + 256 * high
      && LowPart(held, q, r) == held + low && HighPart(0, q, r) == high
  {
    SplitCode(held, q, r);
    SpillIsByte(q, r);
    OrZero(q / Pow2(8 - r));
  }

  lemma PutAddsNumber(payload: seq<Byte>, j: nat, q: nat)
    requires |payload| == PAYLOAD && j < GROUP && q < 8
    requires payload[3 * j / 8] < Pow2(3 * j % 8)
    requires 3 * j % 8 > 5 ==> payload[3 * j / 8 + 1] == 0
    ensures Number(Put(payload, j, q)) == Number(payload) + Pow2(3 * j) * q
  {
    var k, r := 3 * j / 8, 3 * j % 8;
    assert 3 * j == 8 * k + r;
    if r > 5 {
      PutHighAdds(payload, k, r, q);
    } else {
      PutLowAdds(payload, k, r, q);
    }
  }

  lemma NoSpill(q: nat, r: nat)
    requires q * Pow2(r) < 256
    ensures q * Pow2(r) / 256 == 0 && q * Pow2(r) % 256 == q * Pow2(r)
  {
  }

  lemma SpillIsByte(q: nat, r: nat)
    requires q < 8 && 5 < r < 8
    ensures q / Pow2(8 - r) < 8
  {
    Powers();
  }

  lemma PutHolds(payload: seq<Byte>, codes: seq<nat>, q: nat)
    requires Holds(payload, codes) && |codes| < GROUP && q < 8
    ensures Holds(Put(payload, |codes|, q), codes + [q])
  {
    var j := |codes|;
    PutAddsNumber(payload, j, q);
    OctalAppend(codes, q);
    PutLeavesRoom(payload, j, q);
  }

  lemma PutLeavesRoom(payload: seq<Byte>, j: nat, q: nat)
    requires |payload| == PAYLOAD && j < GROUP && q < 8
    requires payload[3 * j / 8] < Pow2(3 * j % 8)
    requires forall i :: 3 * j / 8 < i < PAYLOAD ==> payload[i] == 0
    ensures var r := Put(payload, j, q);
      && (forall i :: 3 * (j + 1) / 8 < i < PAYLOAD ==> r[i] == 0)
      && (3 * (j + 1) / 8 < PAYLOAD ==> r[3 * (j + 1) / 8] < Pow2(3 * (j + 1) % 8))
  {
    var k, r := 3 * j / 8, 3 * j % 8;
    PutAtLeavesRoom(payload, k, r, q);
    Powers();
    NextPlace(j);
    hide PutAt, Pow2;
  }

  lemma NextPlace(j: nat)
    ensures var k, r := 3 * j / 8, 3 * j % 8;
      && 3 * (j + 1) / 8 == (if r >= 5 then k + 1 else k)
      && 3 * (j + 1) % 8 == (if r >= 5 then r - 5 else r + 3)
  {
  }

  lemma PutAtLeavesRoom(payload: seq<Byte>, k: nat, r: nat, q: nat)
    requires k < |payload| && r < 8 && q < 8 && payload[k] < Pow2(r)
    requires r > 5 ==> k + 1 < |payload|
    requires forall i :: k < i < |payload| ==> payload[i] == 0
    ensures var p := PutAt(payload, k, r, q);
      && (forall i :: k + 1 < i < |payload| ==> p[i] == 0)
      && (r <= 5 ==> p[k] < Pow2(r + 3) && forall i :: k < i < |payload| ==> p[i] == 0)
      && (r > 5 ==> p[k + 1] < Pow2(r - 5))
  {
    SplitCode(payload[k], q, r);
    if r > 5 {
      SpillIsByte(q, r);
      OrZero(q / Pow2(8 - r));
    } else {
      NoSpill(q, r);
    }
    hide Or, Pow2;
  }

  // ---------- rounding ----------

  function Clamp(v: real, low: real, high: real): real {
    if v < low then low else if v > high then high else v
  }

  /** Nearest integer, ties to even. */
  function Nearest(v: real): (q: nat)
    requires 0.0 <= v <= 7.0
    ensures q < 8
    ensures -0.5 <= v - q as real <= 0.5
    ensures v - q as real == 0.5 || v - q as real == -0.5 ==> q % 2 == 0
  {
    var floor := v.Floor;
    var rest := v - floor as real;
    if rest > 0.5 || (rest == 0.5 && floor % 2 == 1) then floor + 1 else floor
  }

  function CodeFor(x: real, bias: real, scale: real): (q: nat)
    ensures q < 8
  {
    Nearest(if scale == 0.0 then 0.0 else Clamp((x - bias) / scale, 0.0, 7.0))
  }

  function CodesFor(row: seq<real>, bias: real, scale: real): (codes: seq<nat>)
    ensures |codes| == |row| && AreCodes(codes)
  {
    seq(|row|, i requires 0 <= i < |row| => CodeFor(row[i], bias, scale))
  }

  function Restored(q: nat, bias: real, scale: real): real {
    scale * q as real + bias
  }

  lemma Ratio(d: real, scale: real)
    requires scale > 0.0
    ensures d / scale * scale == d
  {
  }

  lemma CodeIsNear(x: real, bias: real, scale: real)
    requires scale > 0.0 && bias <= x <= bias + 7.0 * scale
    ensures -0.5 <= (x - bias) / scale - CodeFor(x, bias, scale) as real <= 0.5
  {
    Ratio(x - bias, scale);
    InSpan((x - bias) / scale, x - bias, scale);
  }

  /** Inside the representable span the restored value is within half a step. */
  lemma HalfStep(x: real, bias: real, scale: real)
    requires scale > 0.0 && bias <= x <= bias + 7.0 * scale
    ensures -scale / 2.0 <= x - Restored(CodeFor(x, bias, scale), bias, scale) <= scale / 2.0
  {
    CodeIsNear(x, bias, scale);
    Ratio(x - bias, scale);
    hide *;
    Restores(x, bias, scale, (x - bias) / scale, CodeFor(x, bias, scale));
  }

  lemma Restores(x: real, bias: real, scale: real, v: real, q: nat)
    requires scale > 0.0 && v * scale == x - bias && -0.5 <= v - q as real <= 0.5
    ensures -scale / 2.0 <= x - Restored(q, bias, scale) <= scale / 2.0
  {
    Residue(x, bias, scale, v, q, v - q as real);
    hide Restored;
    Scaled(v - q as real, scale, x - Restored(q, bias, scale));
  }

  lemma Residue(x: real, bias: real, scale: real, v: real, q: nat, r: real)
    requires v * scale == x - bias && r == v - q as real
    ensures x - Restored(q, bias, scale) == r * scale
  {
    assert r * scale == v * scale - q as real * scale;
  }

  lemma InSpan(v: real, d: real, scale: real)
    requires scale > 0.0 && v * scale == d && 0.0 <= d <= 7.0 * scale
    ensures 0.0 <= v <= 7.0
  {
    assert v < 0.0 ==> v * scale < 0.0;
    assert v > 7.0 ==> (v - 7.0) * scale > 0.0;
  }

  lemma Scaled(r: real, scale: real, product: real)
    requires scale > 0.0 && -0.5 <= r <= 0.5 && product == r * scale
    ensures -scale / 2.0 <= product <= scale / 2.0
  {
    NotNegative(0.5 - r, scale);
    NotNegative(r + 0.5, scale);
  }

  lemma NotNegative(a: real, b: real)
    requires a >= 0.0 && b >= 0.0
    ensures a * b >= 0.0
  {
  }

  /** Outside the span the code saturates at the nearer end. */
  lemma Saturates(x: real, bias: real, scale: real)
    requires scale > 0.0
    ensures x <= bias ==> CodeFor(x, bias, scale) == 0
    ensures x >= bias + 7.0 * scale ==> CodeFor(x, bias, scale) == 7
  {
    var v := (x - bias) / scale;
    assert v * scale == x - bias;
    assert v > 0.0 ==> v * scale > 0.0;
    assert v < 7.0 ==> (7.0 - v) * scale > 0.0;
  }

  /** Quantizing a restored value gives its code back. */
  lemma RestoredKeepsCode(q: nat, bias: real, scale: real)
    requires scale > 0.0 && q < 8
    ensures CodeFor(Restored(q, bias, scale), bias, scale) == q
  {
    var v := (Restored(q, bias, scale) - bias) / scale;
    assert v == q as real by {
      assert v * scale == scale * q as real;
      Cancel(v, q as real, scale);
    }
  }

  lemma Cancel(a: real, b: real, scale: real)
    requires scale > 0.0 && a * scale == scale * b
    ensures a == b
  {
    assert (a - b) * scale == 0.0;
  }

  // ---------- whole records ----------

  function MinOf(row: seq<real>): (m: real)
    requires row != []
    ensures m in row && forall i :: 0 <= i < |row| ==> m <= row[i]
  {
    if |row| == 1 then row[0]
    else
      var m := MinOf(row[..|row| - 1]);
      if row[|row| - 1] < m then row[|row| - 1] else m
  }

  function MaxOf(row: seq<real>): (m: real)
    requires row != []
    ensures m in row && forall i :: 0 <= i < |row| ==> row[i] <= m
  {
    if |row| == 1 then row[0]
    else
      var m := MaxOf(row[..|row| - 1]);
      if row[|row| - 1] > m then row[|row| - 1] else m
  }

  function ScaleOf(row: seq<real>, format: Format): Half
    requires row != []
  {
    format.round((MaxOf(row) - MinOf(row)) / 7.0)
  }

  function BiasOf(row: seq<real>, format: Format): Half
    requires row != []
  {
    format.round(MinOf(row))
  }

  /** The metadata of a row must be finite, and a spread row must not lose its scale. */
  predicate Representable(row: seq<real>, format: Format)
    requires row != []
  {
    && format.value(ScaleOf(row, format)).Some? && format.value(BiasOf(row, format)).Some?
    && (MaxOf(row) == MinOf(row) || format.value(ScaleOf(row, format)).value != 0.0)
  }

  function Row(input: seq<real>, g: nat): (row: seq<real>)
    requires (g + 1) * GROUP <= |input|
    ensures |row| == GROUP
  {
    input[g * GROUP..(g + 1) * GROUP]
  }

  ghost function RowCodes(row: seq<real>, format: Format): (codes: seq<nat>)
    requires row != [] && Representable(row, format)
    ensures |codes| == |row| && AreCodes(codes)
  {
    CodesFor(row, format.value(BiasOf(row, format)).value, format.value(ScaleOf(row, format)).value)
  }

  /** 28 bytes: the codes as one base-256 number, then scale and bias, low byte first. */
  ghost predicate Packs(bytes: seq<Byte>, row: seq<real>, format: Format) {
    && |bytes| == GROUP_BYTES && |row| == GROUP
    && Representable(row, format)
    && Number(bytes[..PAYLOAD]) == Octal(RowCodes(row, format))
    && bytes[24] + 256 * (bytes[25] as nat) == ScaleOf(row, format)
    && bytes[26] + 256 * (bytes[27] as nat) == BiasOf(row, format)
  }

  method PackCodes(out: array<Byte>, base: nat, row: seq<real>, bias: real, scale: real)
    requires base + GROUP_BYTES <= out.Length && |row| == GROUP
    requires forall i :: base <= i < base + GROUP_BYTES ==> out[i] == 0
    modifies out
    ensures Number(out[base..base + PAYLOAD]) == Octal(CodesFor(row, bias, scale))
    ensures forall i :: 0 <= i < base || base + PAYLOAD <= i < out.Length ==> out[i] == old(out[i])
  {
    ghost var codes := CodesFor(row, bias, scale);
    EmptyHolds(out[base..base + PAYLOAD]);
    assert codes[..0] == [];
    for j := 0 to GROUP
      invariant Holds(out[base..base + PAYLOAD], codes[..j])
      invariant forall i :: 0 <= i < base || base + PAYLOAD <= i < out.Length ==> out[i] == old(out[i])
    {
      ghost var payload := out[base..base + PAYLOAD];
      var q := CodeFor(row[j], bias, scale);
      PutHolds(payload, codes[..j], q);
      assert codes[..j + 1] == codes[..j] + [q];
      PutInPlace(out, base, j, q);
    }
    assert codes[..GROUP] == codes;
  }

  lemma EmptyHolds(payload: seq<Byte>)
    requires |payload| == PAYLOAD && forall i :: 0 <= i < PAYLOAD ==> payload[i] == 0
    ensures Holds(payload, [])
  {
    ZeroNumber(payload);
  }

  lemma {:induction false} ZeroNumber(bytes: seq<Byte>)
    requires forall i :: 0 <= i < |bytes| ==> bytes[i] == 0
    ensures Number(bytes) == 0
  {
    if bytes != [] {
      ZeroNumber(bytes[1..]);
    }
  }

  method PutInPlace(out: array<Byte>, base: nat, j: nat, q: nat)
    requires base + PAYLOAD <= out.Length && j < GROUP && q < 8
    requires out[base + 3 * j / 8] < Pow2(3 * j % 8)
    requires 3 * j % 8 > 5 ==> out[base + 3 * j / 8 + 1] == 0
    modifies out
    ensures out[base..base + PAYLOAD] == Put(old(out[base..base + PAYLOAD]), j, q)
    ensures forall i :: 0 <= i < base || base + PAYLOAD <= i < out.Length ==> out[i] == old(out[i])
  {
    hide PutAt, Pow2;
    PutCode(out, base, 3 * j / 8, 3 * j % 8, q);
  }

  /** OR a code in at bit `r` of byte `k` of the record, and what spills over into the next byte. */
  method PutCode(out: array<Byte>, base: nat, k: nat, r: nat, q: nat)
    requires base + PAYLOAD <= out.Length && k < PAYLOAD && r < 8 && q < 8
    requires out[base + k] < Pow2(r) && (r > 5 ==> k + 1 < PAYLOAD && out[base + k + 1] == 0)
    modifies out
    ensures out[base..base + PAYLOAD] == PutAt(old(out[base..base + PAYLOAD]), k, r, q)
    ensures forall i :: 0 <= i < base || base + PAYLOAD <= i < out.Length ==> out[i] == old(out[i])
  {
    hide LowPart, HighPart, Pow2;
    PutByte(out, base, k, LowPart(out[base + k], q, r));
    if r > 5 {
      PutByte(out, base, k + 1, HighPart(out[base + k + 1], q, r));
    }
  }

  method PutByte(out: array<Byte>, base: nat, k: nat, value: Byte)
    requires base + PAYLOAD <= out.Length && k < PAYLOAD
    modifies out
    ensures out[base..base + PAYLOAD] == old(out[base..base + PAYLOAD])[k := value]
    ensures forall i :: 0 <= i < base || base + PAYLOAD <= i < out.Length ==> out[i] == old(out[i])
  {
    out[base + k] := value;
  }

  method PackGroup(out: array<Byte>, base: nat, row: seq<real>, format: Format)
    requires base + GROUP_BYTES <= out.Length && |row| == GROUP && Representable(row, format)
    requires forall i :: base <= i < base + GROUP_BYTES ==> out[i] == 0
    modifies out
    ensures Packs(out[base..base + GROUP_BYTES], row, format)
    ensures forall i :: 0 <= i < base || base + GROUP_BYTES <= i < out.Length ==> out[i] == old(out[i])
  {
    var scale, bias := ScaleOf(row, format), BiasOf(row, format);
    PackCodes(out, base, row, format.value(bias).value, format.value(scale).value);
    ghost var payload := out[base..base + PAYLOAD];
    out[base + 24], out[base + 25] := scale % 256, scale / 256;
    out[base + 26], out[base + 27] := bias % 256, bias / 256;
    assert out[base..base + GROUP_BYTES][..PAYLOAD] == payload;
  }

  /** The first `g` rows of the input, packed one after the other. */
  ghost predicate AllPacked(bytes: seq<Byte>, input: seq<real>, g: nat, format: Format)
    requires g * GROUP <= |input|
  {
    && |bytes| == g * GROUP_BYTES
    && (g > 0 ==>
          && AllPacked(bytes[..(g - 1) * GROUP_BYTES], input, g - 1, format)
          && Packs(bytes[(g - 1) * GROUP_BYTES..], Row(input, g - 1), format))
  }

  ghost predicate AllRepresentable(input: seq<real>, g: nat, format: Format)
    requires g * GROUP <= |input|
  {
    forall h :: 0 <= h < g ==> Representable(Row(input, h), format)
  }

  /** Fails exactly on empty or partial groups and on unrepresentable metadata. */
  method Quantize(input: seq<real>, format: Format) returns (packed: Result<seq<Byte>>)
    ensures packed.Ok? <==>
      input != [] && |input| % GROUP == 0 && AllRepresentable(input, |input| / GROUP, format)
    ensures packed.Ok? ==> AllPacked(packed.value, input, |input| / GROUP, format)
  {
    hide Packs, Representable, Row;
    if input == [] || |input| % GROUP != 0 {
      return Err;
    }
    var groups := |input| / GROUP;
    var out := new Byte[groups * GROUP_BYTES](_ => 0);
    for g := 0 to groups
      invariant AllRepresentable(input, g, format)
      invariant AllPacked(out[..g * GROUP_BYTES], input, g, format)
      invariant forall i :: g * GROUP_BYTES <= i < out.Length ==> out[i] == 0
    {
      var row := Row(input, g);
      if !Representable(row, format) {
        return Err;
      }
      ghost var done := out[..g * GROUP_BYTES];
      PackGroup(out, g * GROUP_BYTES, row, format);
      ghost var more := out[..(g + 1) * GROUP_BYTES];
      assert more[..g * GROUP_BYTES] == done;
      assert more[g * GROUP_BYTES..] == out[g * GROUP_BYTES..g * GROUP_BYTES + GROUP_BYTES];
    }
    assert out[..groups * GROUP_BYTES] == out[..];
    packed := Ok(out[..]);
  }

  lemma PackedLength(bytes: seq<Byte>, input: seq<real>, g: nat, format: Format)
    requires g * GROUP <= |input| && AllPacked(bytes, input, g, format)
    ensures |bytes| == g * GROUP_BYTES
  {
  }

  lemma {:induction false} PackedAt(bytes: seq<Byte>, input: seq<real>, g: nat, format: Format, h: nat)
    requires g * GROUP <= |input| && AllPacked(bytes, input, g, format) && h < g
    ensures Packs(bytes[h * GROUP_BYTES..(h + 1) * GROUP_BYTES], Row(input, h), format)
  {
    hide Packs, Row;
    if h == g - 1 {
      assert bytes[h * GROUP_BYTES..(h + 1) * GROUP_BYTES] == bytes[(g - 1) * GROUP_BYTES..];
    } else {
      var front := bytes[..(g - 1) * GROUP_BYTES];
      PackedAt(front, input, g - 1, format, h);
      assert front[h * GROUP_BYTES..(h + 1) * GROUP_BYTES] == bytes[h * GROUP_BYTES..(h + 1) * GROUP_BYTES];
    }
  }

  /** Scale and bias of the group an index lies in; None when decoding must refuse them. */
  function MetaAt(packed: seq<Byte>, format: Format, index: nat): Option<(real, real)>
    requires |packed| % GROUP_BYTES == 0 && index < |packed| / GROUP_BYTES * GROUP
  {
    var p := index / GROUP * GROUP_BYTES;
    var scale := format.value(packed[p + 24] + High(packed[p + 25]));
    var bias := format.value(packed[p + 26] + High(packed[p + 27]));
    if scale.None? || bias.None? || scale.value < 0.0 then None else Some((scale.value, bias.value))
  }

  function DecodedAt(packed: seq<Byte>, format: Format, index: nat): Option<real>
    requires |packed| % GROUP_BYTES == 0 && index < |packed| / GROUP_BYTES * GROUP
  {
    var meta := MetaAt(packed, format, index);
    if meta.None? || Code(packed, index).Err? then None
    else Some(Restored(Code(packed, index).value, meta.value.1, meta.value.0))
  }

  method Decode(packed: seq<Byte>, format: Format) returns (values: Result<seq<real>>)
    ensures values.Ok? <==>
      && packed != [] && |packed| % GROUP_BYTES == 0
      && forall i :: 0 <= i < |packed| / GROUP_BYTES * GROUP ==> DecodedAt(packed, format, i).Some?
    ensures values.Ok? ==>
      && |values.value| == |packed| / GROUP_BYTES * GROUP
      && forall i :: 0 <= i < |values.value| ==> DecodedAt(packed, format, i) == Some(values.value[i])
  {
    hide Code, MetaAt;
    if packed == [] || |packed| % GROUP_BYTES != 0 {
      return Err;
    }
    var count := |packed| / GROUP_BYTES * GROUP;
    var out := new real[count](_ => 0.0);
    for i := 0 to count
      invariant forall j :: 0 <= j < i ==> DecodedAt(packed, format, j) == Some(out[j])
    {
      var meta := MetaAt(packed, format, i);
      var code := Code(packed, i);
      if meta.None? || code.Err? {
        assert DecodedAt(packed, format, i).None?;
        return Err;
      }
      out[i] := Restored(code.value, meta.value.1, meta.value.0);
    }
    values := Ok(out[..]);
  }

  // ---------- quantize, then read back ----------

  lemma RowIndex(input: seq<real>, i: nat)
    requires |input| % GROUP == 0 && i < |input|
    ensures i / GROUP < |input| / GROUP && Row(input, i / GROUP)[i % GROUP] == input[i]
  {
  }

  /** For any number of groups, each index reads the very code its input was quantized to. */
  lemma CodeRecovers(packed: seq<Byte>, input: seq<real>, format: Format, i: nat)
    requires |input| % GROUP == 0 && AllPacked(packed, input, |input| / GROUP, format) && i < |input|
    ensures |packed| == |input| / GROUP * GROUP_BYTES
    ensures i / GROUP < |input| / GROUP
    ensures var row := Row(input, i / GROUP);
      Representable(row, format) && Code(packed, i) == Ok(RowCodes(row, format)[i % GROUP])
  {
    hide AllPacked, Code, Row, Representable, CodesFor;
    var g, j := i / GROUP, i % GROUP;
    PackedLength(packed, input, |input| / GROUP, format);
    RowIndex(input, i);
    PackedAt(packed, input, |input| / GROUP, format, g);
    var bytes := packed[g * GROUP_BYTES..(g + 1) * GROUP_BYTES];
    CodeIsDigit(packed, i);
    assert Payload(packed, g) == bytes[..PAYLOAD];
    OctalDigit(RowCodes(Row(input, g), format), j);
  }

  lemma Sizes(packed: seq<Byte>, input: seq<real>, i: nat)
    requires |packed| == |input| / GROUP * GROUP_BYTES && |input| % GROUP == 0 && i < |input|
    ensures |packed| % GROUP_BYTES == 0 && i < |packed| / GROUP_BYTES * GROUP && i / GROUP < |input| / GROUP
  {
  }

  lemma MetaRecovers(packed: seq<Byte>, input: seq<real>, format: Format, i: nat)
    requires |input| % GROUP == 0 && AllPacked(packed, input, |input| / GROUP, format) && i < |input|
    ensures |packed| % GROUP_BYTES == 0 && i < |packed| / GROUP_BYTES * GROUP && i / GROUP < |input| / GROUP
    ensures var row := Row(input, i / GROUP);
      && Representable(row, format)
      && var scale, bias := format.value(ScaleOf(row, format)).value, format.value(BiasOf(row, format)).value;
         MetaAt(packed, format, i) == if scale < 0.0 then None else Some((scale, bias))
  {
    hide AllPacked, Code, Row, CodesFor;
    var g := i / GROUP;
    PackedLength(packed, input, |input| / GROUP, format);
    Sizes(packed, input, i);
    RowIndex(input, i);
    PackedAt(packed, input, |input| / GROUP, format, g);
    var bytes := packed[g * GROUP_BYTES..(g + 1) * GROUP_BYTES];
    var p := g * GROUP_BYTES;
    assert bytes[24] == packed[p + 24] && bytes[25] == packed[p + 25];
    assert bytes[26] == packed[p + 26] && bytes[27] == packed[p + 27];
  }

  lemma {:induction false} SpreadIsNotNegative(row: seq<real>)
    requires row != []
    ensures MinOf(row) <= MaxOf(row)
  {
    if |row| > 1 {
      SpreadIsNotNegative(row[..|row| - 1]);
    }
  }

  /** No rounding turns a non-negative number negative. */
  ghost predicate KeepsSign(format: Format) {
    forall x {:trigger format.round(x)} :: x >= 0.0 && format.value(format.round(x)).Some? ==>
      format.value(format.round(x)).value >= 0.0
  }

  /** What the quantizer returns, the decoder accepts: as many values as there were inputs. */
  lemma DecodesWhatWasQuantized(packed: seq<Byte>, input: seq<real>, format: Format)
    requires input != [] && |input| % GROUP == 0 && AllPacked(packed, input, |input| / GROUP, format)
    requires KeepsSign(format)
    ensures packed != [] && |packed| % GROUP_BYTES == 0 && |packed| / GROUP_BYTES * GROUP == |input|
    ensures forall i :: 0 <= i < |input| ==> DecodedAt(packed, format, i).Some?
  {
    hide AllPacked, MetaAt, Code, DecodedAt, Row;
    PackedLength(packed, input, |input| / GROUP, format);
    SizesMatch(packed, input);
    forall i | 0 <= i < |input|
      ensures DecodedAt(packed, format, i).Some?
    {
      DecodeIsClose(packed, input, format, i);
      var row := Row(input, i / GROUP);
      SpreadIsNotNegative(row);
      assert format.value(format.round((MaxOf(row) - MinOf(row)) / 7.0)).value >= 0.0;
    }
  }

  lemma SizesMatch(packed: seq<Byte>, input: seq<real>)
    requires |packed| == |input| / GROUP * GROUP_BYTES && |input| % GROUP == 0 && input != []
    ensures packed != [] && |packed| % GROUP_BYTES == 0 && |packed| / GROUP_BYTES * GROUP == |input|
  {
  }

  /** Decoding a quantized record returns each input within half a step, if its row's span covers it. */
  lemma DecodeIsClose(packed: seq<Byte>, input: seq<real>, format: Format, i: nat)
    requires |input| % GROUP == 0 && AllPacked(packed, input, |input| / GROUP, format) && i < |input|
    ensures |packed| % GROUP_BYTES == 0 && i < |packed| / GROUP_BYTES * GROUP && i / GROUP < |input| / GROUP
    ensures var row := Row(input, i / GROUP);
      && Representable(row, format)
      && var scale, bias := format.value(ScaleOf(row, format)).value, format.value(BiasOf(row, format)).value;
         && (DecodedAt(packed, format, i).Some? <==> scale >= 0.0)
         && (scale > 0.0 && bias <= input[i] <= bias + 7.0 * scale ==>
               -scale / 2.0 <= input[i] - DecodedAt(packed, format, i).value <= scale / 2.0)
         && (scale == 0.0 ==> DecodedAt(packed, format, i).value == bias)
  {
    CodeRecovers(packed, input, format, i);
    MetaRecovers(packed, input, format, i);
    RowIndex(input, i);
    hide Code, Row, MetaAt, AllPacked, Representable, CodeFor;
    var row := Row(input, i / GROUP);
    var scale, bias := format.value(ScaleOf(row, format)).value, format.value(BiasOf(row, format)).value;
    if scale > 0.0 && bias <= input[i] <= bias + 7.0 * scale {
      HalfStep(input[i], bias, scale);
    }
  }

  // ---------- the chosen metadata cover the row ----------

  /** The least and the greatest input of a row. */
  ghost predicate Extremes(row: seq<real>, lo: real, hi: real) {
    && (exists i :: 0 <= i < |row| && row[i] == lo) && (exists i :: 0 <= i < |row| && row[i] == hi)
    && forall i :: 0 <= i < |row| ==> lo <= row[i] <= hi
  }

  /** The format stores `x` within `error`. */
  ghost predicate Stores(format: Format, x: real, error: real) {
    var stored := format.value(format.round(x));
    stored.Some? && -error <= stored.value - x <= error
  }

  lemma ExtremesAre(row: seq<real>, lo: real, hi: real)
    requires Extremes(row, lo, hi)
    ensures row != [] && MinOf(row) == lo && MaxOf(row) == hi
  {
    var i :| 0 <= i < |row| && row[i] == lo;
    var j :| 0 <= j < |row| && row[j] == hi;
    assert MinOf(row) <= row[i] && row[j] <= MaxOf(row);
  }

  /** How far a restored value can be from an input in lo..hi when the span may fall short of it at either end. */
  lemma NearSpan(x: real, lo: real, hi: real, bias: real, scale: real, biasError: real, scaleError: real)
    requires lo <= x <= hi && -biasError <= bias - lo <= biasError && scale > 0.0
    requires -scaleError <= scale - (hi - lo) / 7.0 <= scaleError
    ensures var error := x - Restored(CodeFor(x, bias, scale), bias, scale);
      || -((hi - lo) / 14.0 + scaleError / 2.0) <= error <= (hi - lo) / 14.0 + scaleError / 2.0
      || -(biasError + 7.0 * scaleError) <= error <= biasError + 7.0 * scaleError
  {
    if x < bias {
      Saturates(x, bias, scale);
    } else if x > bias + 7.0 * scale {
      Saturates(x, bias, scale);
    } else {
      HalfStep(x, bias, scale);
    }
    hide CodeFor;
  }

  /** What decoding a quantized record gives, in terms of the row's own metadata. */
  lemma RecordDecodes(packed: seq<Byte>, input: seq<real>, format: Format, i: nat)
    requires |input| % GROUP == 0 && AllPacked(packed, input, |input| / GROUP, format) && i < |input|
    ensures |packed| % GROUP_BYTES == 0 && i < |packed| / GROUP_BYTES * GROUP && i / GROUP < |input| / GROUP
    ensures var row := Row(input, i / GROUP);
      && i % GROUP < |row| && row[i % GROUP] == input[i] && Representable(row, format)
      && var scale, bias := format.value(ScaleOf(row, format)).value, format.value(BiasOf(row, format)).value;
         var q := CodeFor(input[i], bias, scale);
         && Code(packed, i) == Ok(q)
         && DecodedAt(packed, format, i) == if scale < 0.0 then None else Some(Restored(q, bias, scale))
  {
    CodeRecovers(packed, input, format, i);
    MetaRecovers(packed, input, format, i);
    RowIndex(input, i);
    hide Code, Row, MetaAt, AllPacked, Representable, CodeFor;
  }

  /** A row's metadata: a seventh of its range and its minimum, which must be finite and keep a spread row's step. */
  lemma MetaOfExtremes(row: seq<real>, lo: real, hi: real, format: Format)
    requires Extremes(row, lo, hi)
    ensures row != []
    ensures ScaleOf(row, format) == format.round((hi - lo) / 7.0) && BiasOf(row, format) == format.round(lo)
    ensures var step := format.value(format.round((hi - lo) / 7.0));
      Representable(row, format) <==>
        step.Some? && format.value(format.round(lo)).Some? && (lo < hi ==> step.value != 0.0)
  {
    ExtremesAre(row, lo, hi);
  }

  lemma AnyNearSpan(x: real, lo: real, hi: real, bias: real, scale: real, biasError: real, scaleError: real)
    requires lo <= x <= hi && -biasError <= bias - lo <= biasError && scale >= 0.0
    requires -scaleError <= scale - (hi - lo) / 7.0 <= scaleError && (scale == 0.0 ==> lo == hi)
    ensures var error := x - Restored(CodeFor(x, bias, scale), bias, scale);
      || -((hi - lo) / 14.0 + scaleError / 2.0) <= error <= (hi - lo) / 14.0 + scaleError / 2.0
      || -(biasError + 7.0 * scaleError) <= error <= biasError + 7.0 * scaleError
  {
    if scale > 0.0 {
      NearSpan(x, lo, hi, bias, scale, biasError, scaleError);
    }
  }

  /**
   * Whatever the stored minimum and step lose to rounding, each input of a decodable row comes back within half of
   * the true step (plus half the step's error), or within what the span falls short at its ends.
   */
  lemma RowIsClose(packed: seq<Byte>, input: seq<real>, format: Format, i: nat, lo: real, hi: real,
                   biasError: real, scaleError: real)
    requires |input| % GROUP == 0 && AllPacked(packed, input, |input| / GROUP, format) && i < |input|
    requires i / GROUP < |input| / GROUP && Extremes(Row(input, i / GROUP), lo, hi)
    requires Stores(format, lo, biasError) && Stores(format, (hi - lo) / 7.0, scaleError)
    ensures |packed| % GROUP_BYTES == 0 && i < |packed| / GROUP_BYTES * GROUP
    ensures DecodedAt(packed, format, i).Some? <==> format.value(format.round((hi - lo) / 7.0)).value >= 0.0
    ensures DecodedAt(packed, format, i).Some? ==>
      var error := input[i] - DecodedAt(packed, format, i).value;
      || -((hi - lo) / 14.0 + scaleError / 2.0) <= error <= (hi - lo) / 14.0 + scaleError / 2.0
      || -(biasError + 7.0 * scaleError) <= error <= biasError + 7.0 * scaleError
  {
    var row := Row(input, i / GROUP);
    RecordDecodes(packed, input, format, i);
    MetaOfExtremes(row, lo, hi, format);
    assert lo <= row[i % GROUP] <= hi;
    hide AllPacked, Row, DecodedAt, Code, CodeFor, Restored, Representable, ScaleOf, BiasOf, Extremes;
    var scale, bias := format.value(ScaleOf(row, format)).value, format.value(BiasOf(row, format)).value;
    if scale >= 0.0 {
      AnyNearSpan(input[i], lo, hi, bias, scale, biasError, scaleError);
    }
  }

  /** A format that keeps the row's minimum and step loses at most half a step: a fourteenth of the row's range. */
  lemma ExactRowIsClose(packed: seq<Byte>, input: seq<real>, format: Format, i: nat, lo: real, hi: real)
    requires |input| % GROUP == 0 && AllPacked(packed, input, |input| / GROUP, format) && i < |input|
    requires i / GROUP < |input| / GROUP && Extremes(Row(input, i / GROUP), lo, hi)
    requires Stores(format, lo, 0.0) && Stores(format, (hi - lo) / 7.0, 0.0)
    ensures |packed| % GROUP_BYTES == 0 && i < |packed| / GROUP_BYTES * GROUP
    ensures DecodedAt(packed, format, i).Some?
    ensures -(hi - lo) / 14.0 <= input[i] - DecodedAt(packed, format, i).value <= (hi - lo) / 14.0
  {
    LeastFirst(Row(input, i / GROUP), lo, hi);
    hide AllPacked, Row, DecodedAt, Extremes;
    RowIsClose(packed, input, format, i, lo, hi, 0.0, 0.0);
  }

  lemma LeastFirst(row: seq<real>, lo: real, hi: real)
    requires Extremes(row, lo, hi)
    ensures lo <= hi
  {
  }

  /** A constant row has only zero codes and comes back as its stored value. */
  lemma ConstantRowRestores(packed: seq<Byte>, input: seq<real>, format: Format, i: nat, x: real)
    requires |input| % GROUP == 0 && AllPacked(packed, input, |input| / GROUP, format) && i < |input|
    requires i / GROUP < |input| / GROUP && Extremes(Row(input, i / GROUP), x, x)
    requires Stores(format, 0.0, 0.0)
    ensures |packed| % GROUP_BYTES == 0 && i < |packed| / GROUP_BYTES * GROUP
    ensures Code(packed, i) == Ok(0) && DecodedAt(packed, format, i) == format.value(format.round(x))
  {
    var row := Row(input, i / GROUP);
    RecordDecodes(packed, input, format, i);
    MetaOfExtremes(row, x, x, format);
    assert (x - x) / 7.0 == 0.0;
    ZeroStep(input[i], format.value(BiasOf(row, format)).value);
    hide AllPacked, Row, DecodedAt, Code, CodeFor, Restored, ScaleOf, BiasOf, Extremes;
  }

  lemma ZeroStep(x: real, bias: real)
    ensures CodeFor(x, bias, 0.0) == 0 && Restored(0, bias, 0.0) == bias
  {
  }
}
