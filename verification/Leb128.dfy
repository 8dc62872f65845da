/** LEB128 variable-length integers: seven bits a byte, low bits first, the high bit says that more follows. */
module Leb128 {
  import opened Wrappers

  type Byte = b: int | 0 <= b < 256

  const TWO_64 := 0x1_0000_0000_0000_0000

  function Varint(value: nat): (bytes: seq<Byte>) {
    if value < 128 then [value] else [value % 128 + 128] + Varint(value / 128)
  }

  /** What a varint of at most `room` bytes at the head of `input` spells, and what follows it. */
  function Scan(input: seq<Byte>, room: nat): (r: Option<(nat, seq<Byte>)>)
    ensures r.Some? ==> |r.value.1| < |input|
  {
    if room == 0 || input == [] then None
    else if input[0] < 128 then Some((input[0], input[1..]))
    else
      match Scan(input[1..], room - 1)
      case None => None
      case Some((high, rest)) => Some((input[0] - 128 + 128 * high, rest))
  }

  /** Ten bytes hold 70 bits: what does not fit in 64 is lost. */
  function ReadVarint(input: seq<Byte>): (r: Option<(nat, seq<Byte>)>)
    ensures r.Some? ==> |r.value.1| < |input|
  {
    match Scan(input, 10)
    case None => None
    case Some((value, rest)) => Some((value % TWO_64, rest))
  }

  function Pow128(k: nat): (p: nat)
    ensures p > 0
  {
    if k == 0 then 1 else 128 * Pow128(k - 1)
  }

  lemma Pow128Literals()
    ensures Pow128(8) == 0x100_0000_0000_0000 && Pow128(9) == 0x8000_0000_0000_0000
  {
    assert Pow128(2) == 0x4000;
    assert Pow128(4) == 0x1000_0000;
    assert Pow128(6) == 0x400_0000_0000;
    assert Pow128(8) == 0x100_0000_0000_0000;
  }

  lemma {:induction false} Pow128Monotone(j: nat, k: nat)
    requires j <= k
    ensures Pow128(j) <= Pow128(k)
    decreases k
  {
    if j < k {
      Pow128Monotone(j, k - 1);
    }
  }

  /** Reading what was written gives the value back, whatever follows it. */
  lemma {:induction false} ScanVarint(value: nat, rest: seq<Byte>, room: nat)
    requires value < Pow128(room) && room > 0
    ensures Scan(Varint(value) + rest, room) == Some((value, rest))
    decreases value
  {
    var input := Varint(value) + rest;
    if value < 128 {
      assert room > 0 && input[1..] == rest;
    } else {
      assert room > 0;
      ScanVarint(value / 128, rest, room - 1);
      assert input[1..] == Varint(value / 128) + rest;
    }
  }

  lemma ReadVarintInverse(value: nat, rest: seq<Byte>)
    requires value < TWO_64
    ensures ReadVarint(Varint(value) + rest) == Some((value, rest))
  {
    hide Pow128, Scan, Varint;
    TenBytesHold(value);
    ScanVarint(value, rest, 10);
    SmallModulo(value);
  }

  lemma TenBytesHold(value: nat)
    requires value < TWO_64
    ensures value < Pow128(10)
  {
    hide Pow128;
    Pow128Literals();
    Pow128Next(9);
  }

  lemma SmallModulo(value: nat)
    requires value < TWO_64
    ensures value % TWO_64 == value
  {
  }

  /** `write_varint` */
  method WriteVarint(out: seq<Byte>, value: nat) returns (out': seq<Byte>)
    ensures out' == out + Varint(value)
  {
    var rest := value;
    out' := out;
    while rest >= 0x80
      invariant out + Varint(value) == out' + Varint(rest)
    {
      assert out' + Varint(rest) == out' + [rest % 128 + 128] + Varint(rest / 128);
      out' := out' + [rest % 128 + 128];
      rest := rest / 128;
    }
    out' := out' + [rest];
  }

  /** After `k` bytes, spelling `value`, the rest of the input decides the whole scan. */
  ghost predicate ScanState(input: seq<Byte>, rest: seq<Byte>, value: nat, k: nat)
    requires k <= 10
  {
    && value < Pow128(k)
    && match Scan(rest, 10 - k)
       case None => Scan(input, 10).None?
       case Some((high, after)) => Scan(input, 10) == Some((value + Pow128(k) * high, after))
  }

  /** `read_varint`: the value read and the input left, or nothing on a short or endless varint. */
  method Read(input: seq<Byte>) returns (r: Option<(nat, seq<Byte>)>)
    ensures r == ReadVarint(input)
  {
    var value: nat := 0;
    var rest := input;
    for k := 0 to 10
      invariant ScanState(input, rest, value, k)
    {
      if rest == [] {
        return None;
      }
      var byte := rest[0];
      ScanByte(input, rest, value, k);
      rest := rest[1..];
      // The bits already read are below the shift, so `|` is an addition.
      value := value + byte % 128 * Pow128(k) % TWO_64;
      if byte < 0x80 {
        return Some((value, rest));
      }
    }
    return None;
  }

  lemma ScanTurn(rest: seq<Byte>, room: nat)
    requires room > 0 && rest != []
    ensures rest[0] < 128 ==> Scan(rest, room) == Some((rest[0], rest[1..]))
    ensures rest[0] >= 128 ==>
      match Scan(rest[1..], room - 1)
      case None => Scan(rest, room).None?
      case Some((high, after)) => Scan(rest, room) == Some((rest[0] - 128 + 128 * high, after))
    ensures Scan(rest, 0).None?
    ensures room == 1 ==> Scan(rest[1..], room - 1).None?
  {
  }

  lemma ScanByte(input: seq<Byte>, rest: seq<Byte>, value: nat, k: nat)
    requires k < 10 && ScanState(input, rest, value, k) && rest != []
    ensures var value' := value + rest[0] % 128 * Pow128(k) % TWO_64;
            if rest[0] < 128 then ReadVarint(input) == Some((value', rest[1..]))
            else ScanState(input, rest[1..], value', k + 1)
  {
    hide Pow128, Scan, ScanState, ReadVarint;
    if rest[0] < 128 {
      ScanLast(input, rest, value, k);
    } else if k < 9 {
      ScanMore(input, rest, value, k);
    } else {
      ScanTooLong(input, rest, value);
    }
  }

  lemma ScanLast(input: seq<Byte>, rest: seq<Byte>, value: nat, k: nat)
    requires k < 10 && ScanState(input, rest, value, k) && rest != [] && rest[0] < 128
    ensures ReadVarint(input) == Some((value + rest[0] % 128 * Pow128(k) % TWO_64, rest[1..]))
  {
    hide Pow128, Scan;
    ScanTurn(rest, 10 - k);
    ShiftFits(value, rest[0], k);
  }

  lemma ScanMore(input: seq<Byte>, rest: seq<Byte>, value: nat, k: nat)
    requires k < 9 && ScanState(input, rest, value, k) && rest != [] && rest[0] >= 128
    ensures ScanState(input, rest[1..], value + rest[0] % 128 * Pow128(k) % TWO_64, k + 1)
  {
    hide Pow128, Scan;
    var low: nat := rest[0] - 128;
    assert rest[0] % 128 == low;
    ShiftFits(value, low, k);
    ScanJoins(input, rest, value, low, value + low * Pow128(k) % TWO_64, k);
  }

  lemma ScanJoins(input: seq<Byte>, rest: seq<Byte>, value: nat, low: nat, joined: nat, k: nat)
    requires k < 9 && ScanState(input, rest, value, k) && rest != [] && rest[0] == low + 128
    requires joined == value + low * Pow128(k) < Pow128(k + 1)
    ensures ScanState(input, rest[1..], joined, k + 1)
  {
    hide Pow128, Scan;
    ScanTurn(rest, 10 - k);
    match Scan(rest[1..], 9 - k) {
      case None =>
      case Some((high, after)) => Redistribute(value, low, high, k);
    }
  }

  lemma ScanTooLong(input: seq<Byte>, rest: seq<Byte>, value: nat)
    requires ScanState(input, rest, value, 9) && rest != [] && rest[0] >= 128
    ensures ScanState(input, rest[1..], value + rest[0] % 128 * Pow128(9) % TWO_64, 10)
  {
    hide Pow128, Scan;
    ScanTurn(rest, 1);
    ShiftFits(value, rest[0] - 128, 9);
  }

  lemma Redistribute(value: nat, low: nat, high: nat, k: nat)
    ensures value + Pow128(k) * (low + 128 * high) == value + low * Pow128(k) + Pow128(k + 1) * high
  {
    var p := Pow128(k);
    assert p * (low + 128 * high) == p * low + 128 * p * high;
  }

  /** Bits shifted in above those already read neither collide with them nor, before the tenth byte, overflow. */
  lemma ShiftFits(value: nat, low: nat, k: nat)
    requires value < Pow128(k) && low < 128 && k < 10
    ensures (value + Pow128(k) * low) % TWO_64 == value + low * Pow128(k) % TWO_64 < Pow128(k + 1)
    ensures k < 9 ==> low * Pow128(k) % TWO_64 == low * Pow128(k)
  {
    hide Pow128;
    Pow128Literals();
    Pow128Next(k);
    if k < 9 {
      Pow128Monotone(k, 8);
      EarlyShift(value, low, Pow128(k));
    } else {
      TenthShift(value, low);
    }
  }

  lemma Pow128Next(k: nat)
    ensures Pow128(k + 1) == 128 * Pow128(k)
  {
  }

  lemma EarlyShift(value: nat, low: nat, p: nat)
    requires value < p <= 0x100_0000_0000_0000 && low < 128
    ensures (value + p * low) % TWO_64 == value + low * p % TWO_64 < 128 * p
    ensures low * p % TWO_64 == low * p
  {
    assert low * p <= 127 * p;
    SmallModulo(low * p);
    SmallModulo(value + low * p);
  }

  lemma TenthShift(value: nat, low: nat)
    requires value < 0x8000_0000_0000_0000 && low < 128
    ensures var shifted := low * 0x8000_0000_0000_0000;
            (value + shifted) % TWO_64 == value + shifted % TWO_64 < 128 * 0x8000_0000_0000_0000
  {
    var shifted := low * 0x8000_0000_0000_0000;
    assert shifted == (low / 2) * TWO_64 + (low % 2) * 0x8000_0000_0000_0000;
    assert shifted % TWO_64 == (low % 2) * 0x8000_0000_0000_0000;
  }
}
