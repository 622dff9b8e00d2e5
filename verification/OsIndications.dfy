/**
 The OsIndications variable: four attribute bytes and a 64-bit value whose bit 2
 asks the firmware to process capsules on the next boot.
 */
module OsIndications {
  import opened Basics
  import opened LittleEndian

  const ATTRIBUTES: seq<byte> := [7, 0, 0, 0]

  predicate Bit2(v: nat) {
    v / 4 % 2 == 1
  }

  /** The value a variable carries; an absent or short one counts as zero. */
  function Value(raw: Option<seq<byte>>): nat {
    if raw.Some? && |raw.value| >= 5 then FromLE(raw.value[4..Min(12, |raw.value|)]) else 0
  }

  predicate Armed(raw: Option<seq<byte>>) {
    raw.Some? && |raw.value| >= 5 && Bit2(raw.value[4])
  }

  /** All bits but bit 2 agree. */
  predicate OtherBitsAgree(v: nat, w: nat) {
    v / 8 == w / 8 && v % 4 == w % 4
  }

  function Encode(v: nat): seq<byte> {
    ATTRIBUTES + ToLE(v, 8)
  }

  const TWO_TO_64 := 0x1_0000_0000_0000_0000

  lemma Pow256Of8()
    ensures Pow256(8) == TWO_TO_64
  {
    assert Pow256(2) == 0x1_0000;
    assert Pow256(4) == 0x1_0000_0000;
    assert Pow256(6) == 0x1_0000_0000_0000;
  }

  lemma ValueBound(raw: Option<seq<byte>>)
    ensures Value(raw) < TWO_TO_64
  {
    if raw.Some? && |raw.value| >= 5 {
      var s := raw.value[4..Min(12, |raw.value|)];
      FromLEBound(s);
      Pow256Monotone(|s|, 8);
      Pow256Of8();
    }
  }

  lemma {:induction false} Pow256Monotone(m: nat, n: nat)
    requires m <= n
    ensures Pow256(m) <= Pow256(n)
  {
    if m < n {
      Pow256Monotone(m, n - 1);
    }
  }

  lemma Bit2OfLowByte(b: byte, rest: nat)
    ensures Bit2(b + 256 * rest) == Bit2(b)
  {
    assert (b + 256 * rest) / 4 == b / 4 + 64 * rest;
  }

  lemma EncodedValue(v: nat)
    requires v < TWO_TO_64
    ensures Value(Some(Encode(v))) == v
    ensures Armed(Some(Encode(v))) == Bit2(v)
  {
    assert Encode(v)[4..12] == ToLE(v, 8);
    Pow256Of8();
    FromToLE(v, 8);
    var low: byte := v % 256;
    assert Encode(v)[4] == ToLE(v, 8)[0] == low;
    Bit2OfLowByte(low, v / 256);
  }

  lemma ChangingBit2(v: nat)
    requires v < TWO_TO_64
    ensures Bit2(SetBit2(v)) && OtherBitsAgree(SetBit2(v), v) && SetBit2(v) < TWO_TO_64
    ensures !Bit2(ClearBit2(v)) && OtherBitsAgree(ClearBit2(v), v)
  {
    var high, low := v / 8, v % 4;
    assert v == 8 * high + 4 * (v / 4 % 2) + low;
    if Bit2(v) {
      assert v - 4 == 8 * high + low;
      assert (v - 4) / 4 == 2 * high;
    } else {
      assert v + 4 == 8 * high + 4 + low;
      assert (v + 4) / 4 == 2 * high + 1;
    }
  }

  /** The first value byte alone decides bit 2. */
  lemma ArmedIsBit2(raw: Option<seq<byte>>)
    ensures Armed(raw) == Bit2(Value(raw))
  {
    if raw.Some? && |raw.value| >= 5 {
      var s := raw.value[4..Min(12, |raw.value|)];
      assert s[0] == raw.value[4] && FromLE(s) == s[0] + 256 * FromLE(s[1..]);
      Bit2OfLowByte(s[0], FromLE(s[1..]));
    }
  }

  /** The 64-bit value, byte by byte, lowest first. */
  method Decode(raw: seq<byte>) returns (value: nat)
    requires |raw| >= 5
    ensures value == Value(Some(raw))
  {
    value := 0;
    var i, weight: nat := 0, 1;
    while i < 8 && 4 + i < |raw|
      invariant 0 <= i <= 8 && 4 + i <= |raw|
      invariant weight == Pow256(i)
      invariant value == FromLE(raw[4..4 + i])
    {
      FromLEAppend(raw[4..4 + i], raw[4 + i]);
      assert raw[4..4 + i] + [raw[4 + i]] == raw[4..4 + i + 1];
      value := value + raw[4 + i] * weight;
      weight := 256 * weight;
      i := i + 1;
    }
  }

  /** The 12-byte payload for a value: shift out one byte at a time. */
  method Payload(value: nat) returns (payload: seq<byte>)
    ensures payload == Encode(value)
  {
    payload := ATTRIBUTES;
    var i, shifted := 0, value;
    while i < 8
      invariant 0 <= i <= 8
      invariant payload + ToLE(shifted, 8 - i) == Encode(value)
    {
      assert ToLE(shifted, 8 - i) == [shifted % 256] + ToLE(shifted / 256, 7 - i);
      assert payload + ([shifted % 256] + ToLE(shifted / 256, 7 - i)) == (payload + [shifted % 256]) + ToLE(shifted / 256, 7 - i);
      payload := payload + [shifted % 256];
      shifted, i := shifted / 256, i + 1;
    }
    assert payload + ToLE(shifted, 0) == payload;
  }

  function SetBit2(v: nat): nat {
    if Bit2(v) then v else v + 4
  }

  function ClearBit2(v: nat): nat {
    if Bit2(v) then v - 4 else v
  }

  /** What setOsIndicationsCapsuleBit writes over the present content. */
  method SetCapsuleBit(raw: Option<seq<byte>>) returns (written: seq<byte>)
    ensures written == Encode(SetBit2(Value(raw)))
  {
    var value := 0;
    if raw.Some? && |raw.value| >= 5 {
      value := Decode(raw.value);
    }
    if value / 4 % 2 == 0 { value := value + 4; }
    written := Payload(value);
  }

  /** What clearOsIndicationsCapsuleBit leaves behind; nothing is written unless the bit is set. */
  method ClearCapsuleBit(raw: Option<seq<byte>>) returns (after: Option<seq<byte>>)
    ensures after == if Armed(raw) then Some(Encode(ClearBit2(Value(raw)))) else raw
  {
    if raw.None? || |raw.value| < 5 || raw.value[4] / 4 % 2 == 0 { return raw; }
    ArmedIsBit2(raw);
    var value := Decode(raw.value);
    var payload := Payload(value - 4);
    return Some(payload);
  }

  function AfterSet(raw: Option<seq<byte>>): Option<seq<byte>> {
    Some(Encode(SetBit2(Value(raw))))
  }

  function AfterClear(raw: Option<seq<byte>>): Option<seq<byte>> {
    if Armed(raw) then Some(Encode(ClearBit2(Value(raw)))) else raw
  }

  /** Whatever the variable held: setting arms it and touches no other bit. */
  lemma SetArms(raw: Option<seq<byte>>)
    ensures Armed(AfterSet(raw))
    ensures OtherBitsAgree(Value(AfterSet(raw)), Value(raw))
  {
    ValueBound(raw);
    ChangingBit2(Value(raw));
    EncodedValue(SetBit2(Value(raw)));
  }

  /** Whatever the variable held: clearing disarms it and touches no other bit. */
  lemma ClearDisarms(raw: Option<seq<byte>>)
    ensures !Armed(AfterClear(raw))
    ensures OtherBitsAgree(Value(AfterClear(raw)), Value(raw))
  {
    ValueBound(raw);
    ArmedIsBit2(raw);
    if Armed(raw) {
      ChangingBit2(Value(raw));
      EncodedValue(ClearBit2(Value(raw)));
    }
  }

  /** Arming and disarming a variable that was not armed restores its value. */
  lemma SetThenClear(raw: Option<seq<byte>>)
    requires !Armed(raw)
    ensures Value(AfterClear(AfterSet(raw))) == Value(raw)
  {
    var v := Value(raw);
    ValueBound(raw);
    ArmedIsBit2(raw);
    SetArms(raw);
    ChangingBit2(v);
    EncodedValue(SetBit2(v));
    assert ClearBit2(SetBit2(v)) == v;
    EncodedValue(v);
  }

  /** On a device that never had the variable: attributes, then the value four, lowest byte first. */
  lemma FreshVariable()
    ensures AfterSet(None) == Some([7, 0, 0, 0, 4, 0, 0, 0, 0, 0, 0, 0])
  {
    assert ToLE(4, 8) == [4] + ToLE(0, 7);
    ZeroBytes(7);
    assert Encode(4) == [7, 0, 0, 0, 4, 0, 0, 0, 0, 0, 0, 0];
  }

  lemma {:induction false} ZeroBytes(n: nat)
    ensures ToLE(0, n) == seq(n, _ => 0)
  {
    if n > 0 {
      ZeroBytes(n - 1);
    }
  }
}
