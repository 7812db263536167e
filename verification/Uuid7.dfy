/** The UUIDv7 bit layout of section 5.7 of RFC 9562, as the fallback generator assembles it. Times are whole
    milliseconds, up to 128 bits; the random value is ten bytes. */
module Uuid7 {
  // ----- reading an id ---------------------------------------------------

  function TimeOf(id: bv128): bv128 { id >> 80 }

  function VersionOf(id: bv128): bv128 { (id >> 76) & 0xF }

  function RandAOf(id: bv128): bv128 { (id >> 64) & 0xFFF }

  function VariantOf(id: bv128): bv128 { (id >> 62) & 0x3 }

  function RandBOf(id: bv128): bv128 { id & 0x3FFF_FFFF_FFFF_FFFF }

  // ----- making one ------------------------------------------------------

  function TimeBits(unixMs: bv128): bv128 { unixMs & 0xFFFF_FFFF_FFFF }

  function RandA(rand: bv80): bv128 { ((rand >> 62) & 0xFFF) as bv128 }

  function RandB(rand: bv80): bv128 { (rand & 0x3FFF_FFFF_FFFF_FFFF) as bv128 }

  function Layout(t: bv128, a: bv128, b: bv128): bv128 {
    ((((t << 80) | (0x7 << 76)) | (a << 64)) | (0x2 << 62)) | b
  }

  function Id(unixMs: bv128, rand: bv80): bv128 {
    Layout(TimeBits(unixMs), RandA(rand), RandB(rand))
  }

  method Fallback(unixMs: bv128, rand: bv80) returns (value: bv128)
    ensures value == Id(unixMs, rand)
  {
    var randA := ((rand >> 62) & 0xFFF) as bv128;
    var randB := (rand & 0x3FFF_FFFF_FFFF_FFFF) as bv128;
    value := (unixMs & 0xFFFF_FFFF_FFFF) << 80;
    value := value | (0x7 << 76);
    value := value | (randA << 64);
    value := value | (0x2 << 62);
    value := value | randB;
  }

  // ----- the fields of a layout ------------------------------------------

  predicate Narrow(t: bv128, a: bv128, b: bv128) {
    t <= 0xFFFF_FFFF_FFFF && a <= 0xFFF && b <= 0x3FFF_FFFF_FFFF_FFFF
  }

  lemma LayoutTime(t: bv128, a: bv128, b: bv128)
    requires Narrow(t, a, b)
    ensures TimeOf(Layout(t, a, b)) == t
  {
  }

  lemma LayoutTags(t: bv128, a: bv128, b: bv128)
    requires Narrow(t, a, b)
    ensures VersionOf(Layout(t, a, b)) == 7 && VariantOf(Layout(t, a, b)) == 2
  {
  }

  lemma LayoutRandom(t: bv128, a: bv128, b: bv128)
    requires Narrow(t, a, b)
    ensures RandAOf(Layout(t, a, b)) == a && RandBOf(Layout(t, a, b)) == b
  {
  }

  lemma InputsAreNarrow(unixMs: bv128, rand: bv80)
    ensures Narrow(TimeBits(unixMs), RandA(rand), RandB(rand))
  {
  }

  /** Every field decodes back: version 7, variant binary 10, the low 48 bits of the time, and the 12 and 62
      random bits. */
  lemma FieldsDecode(unixMs: bv128, rand: bv80)
    ensures VersionOf(Id(unixMs, rand)) == 7 && VariantOf(Id(unixMs, rand)) == 2
    ensures TimeOf(Id(unixMs, rand)) == TimeBits(unixMs)
    ensures RandAOf(Id(unixMs, rand)) == RandA(rand) && RandBOf(Id(unixMs, rand)) == RandB(rand)
  {
    hide Layout, TimeBits, RandA, RandB, VersionOf, VariantOf, TimeOf, RandAOf, RandBOf, Narrow;
    InputsAreNarrow(unixMs, rand);
    LayoutTime(TimeBits(unixMs), RandA(rand), RandB(rand));
    LayoutTags(TimeBits(unixMs), RandA(rand), RandB(rand));
    LayoutRandom(TimeBits(unixMs), RandA(rand), RandB(rand));
  }

  /** The same with the bits spelled out. */
  lemma BitsSpelled(unixMs: bv128, rand: bv80)
    ensures var id := Id(unixMs, rand);
            && id >> 80 == unixMs & 0xFFFF_FFFF_FFFF
            && (id >> 76) & 0xF == 7 && (id >> 62) & 0x3 == 2
            && (id >> 64) & 0xFFF == ((rand >> 62) & 0xFFF) as bv128
            && id & 0x3FFF_FFFF_FFFF_FFFF == (rand & 0x3FFF_FFFF_FFFF_FFFF) as bv128
  {
    hide Id;
    FieldsDecode(unixMs, rand);
  }

  /** Every id of version 7 and variant binary 10 is the layout of its own fields. */
  lemma LayoutOfFields(id: bv128)
    requires VersionOf(id) == 7 && VariantOf(id) == 2
    ensures Layout(TimeOf(id), RandAOf(id), RandBOf(id)) == id
  {
    assert id == (((((id >> 80) << 80) | (((id >> 76) & 0xF) << 76)) | (((id >> 64) & 0xFFF) << 64))
                  | (((id >> 62) & 0x3) << 62)) | (id & 0x3FFF_FFFF_FFFF_FFFF);
  }

  function Low74(rand: bv80): bv80 { rand << 6 }

  lemma LowSame(x: bv80, y: bv80)
    requires Low74(x) == Low74(y)
    ensures RandA(x) == RandA(y) && RandB(x) == RandB(y)
  {
  }

  lemma LowSameBack(x: bv80, y: bv80)
    requires RandA(x) == RandA(y) && RandB(x) == RandB(y)
    ensures Low74(x) == Low74(y)
  {
  }

  /** Two ids collide exactly when the times agree on 48 bits and the random values on their low 74. */
  lemma CollideExactlyWhen(msA: bv128, randA: bv80, msB: bv128, randB: bv80)
    ensures Id(msA, randA) == Id(msB, randB) <==> TimeBits(msA) == TimeBits(msB) && Low74(randA) == Low74(randB)
  {
    hide Low74, Layout, TimeBits, RandA, RandB, VersionOf, VariantOf, TimeOf, RandAOf, RandBOf;
    FieldsDecode(msA, randA);
    FieldsDecode(msB, randB);
    if Low74(randA) == Low74(randB) {
      LowSame(randA, randB);
    }
    if RandA(randA) == RandA(randB) && RandB(randA) == RandB(randB) {
      LowSameBack(randA, randB);
    }
  }

  lemma TimeOrders(a: bv128, timeA: bv128, b: bv128, timeB: bv128)
    requires TimeOf(a) == timeA && TimeOf(b) == timeB && timeA < timeB
    ensures a < b
  {
  }

  /** Below 2^48 an earlier millisecond gives a strictly smaller id, whatever the random values. */
  lemma EarlierIsSmaller(msA: bv128, randA: bv80, msB: bv128, randB: bv80)
    requires msA < msB <= 0xFFFF_FFFF_FFFF
    ensures Id(msA, randA) < Id(msB, randB)
  {
    hide Id, TimeOf, RandAOf, RandBOf, RandA, RandB, VersionOf, VariantOf;
    FieldsDecode(msA, randA);
    FieldsDecode(msB, randB);
    TimeOrders(Id(msA, randA), msA, Id(msB, randB), msB);
  }

  /** The bound is needed: the time field wraps at 2^48. */
  lemma WrapsAt48Bits(randA: bv80, randB: bv80)
    ensures Id(0x1_0000_0000_0000, randB) < Id(0xFFFF_FFFF_FFFF, randA)
  {
    hide Id, TimeOf, RandAOf, RandBOf, RandA, RandB, VersionOf, VariantOf;
    FieldsDecode(0x1_0000_0000_0000, randB);
    FieldsDecode(0xFFFF_FFFF_FFFF, randA);
    TimeOrders(Id(0x1_0000_0000_0000, randB), 0, Id(0xFFFF_FFFF_FFFF, randA), 0xFFFF_FFFF_FFFF);
  }
}
