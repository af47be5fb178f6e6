/** Where a deadline lives in a timing wheel.

    Both wheels of the server split a 32-bit deadline into the digits 8+6+6+6+6, lowest first, and
    file it under the most significant digit in which it differs from the current time.  This module
    holds that placement function and the one fact both wheels rest on: when the time advances by one,
    the only deadlines whose place changes are those in the single list that the wheel cascades. */
module WheelDigits {

  import opened Division

  const WRAP: nat := 0x1_0000_0000 // the times are uint32_t
  const NEAR := 256
  const LEVEL := 64

  /** `Near` is the lowest digit, `Far(level, _)` the four six-bit digits above it, and `Overflow` the
      list that only the second wheel keeps. */
  datatype Slot = Near(idx: nat) | Far(level: nat, idx: nat) | Overflow

  predicate InWheel(s: Slot) {
    match s
    case Near(i) => i < NEAR
    case Far(l, i) => l < 4 && i < LEVEL
    case Overflow => false
  }

  /** The weight of the digit at a far level; Unit(4) would be beyond 32 bits. */
  function Unit(level: nat): (u: nat)
    requires level <= 4
    ensures u > 0
  {
    if level == 0 then 0x100
    else if level == 1 then 0x4000
    else if level == 2 then 0x10_0000
    else if level == 3 then 0x400_0000
    else 0x1_0000_0000
  }

  /** `x >> (8 + 6 * level)`: the time without the digits below a far level. */
  function Quot(x: nat, level: nat): nat
    requires level <= 4
  {
    if level == 0 then x / 0x100
    else if level == 1 then x / 0x4000
    else if level == 2 then x / 0x10_0000
    else if level == 3 then x / 0x400_0000
    else x / 0x1_0000_0000
  }

  /** `x | (m - 1)` for a power of two `m`: all the bits below `m` set. */
  function OrLow(x: nat, m: nat): nat
    requires m > 0
  {
    x - x % m + (m - 1)
  }

  lemma OrLowSetsBits(x: nat, m: nat)
    requires m > 0
    ensures OrLow(x, m) / m == x / m && OrLow(x, m) % m == m - 1
  {
    assert x - x % m == m * (x / m);
    QuotientIs(m * (x / m) + (m - 1), m, x / m, m - 1);
  }

  lemma OrLowComparesQuotients(x: nat, y: nat, m: nat)
    requires m > 0
    ensures OrLow(x, m) == OrLow(y, m) <==> x / m == y / m
  {
    OrLowSetsBits(x, m);
    OrLowSetsBits(y, m);
    if x / m == y / m {
      hide OrLow;
      SameBits(x, y, m);
    }
  }

  lemma SameBits(x: nat, y: nat, m: nat)
    requires m > 0 && x / m == y / m
    ensures OrLow(x, m) == OrLow(y, m)
  {
    assert x - x % m == m * (x / m);
    assert y - y % m == m * (y / m);
  }

  /** The lowest far level at which the two times agree on every higher digit. */
  function LevelOf(expire: nat, time: nat): (l: nat)
    ensures l < 4
  {
    if Quot(expire, 1) == Quot(time, 1) then 0
    else if Quot(expire, 2) == Quot(time, 2) then 1
    else if Quot(expire, 3) == Quot(time, 3) then 2
    else 3
  }

  function SlotOf(expire: nat, time: nat): (s: Slot)
    requires expire < WRAP
    ensures InWheel(s)
  {
    if expire / NEAR == time / NEAR then Near(expire % NEAR)
    else var l := LevelOf(expire, time); Far(l, Quot(expire, l) % LEVEL)
  }

  /** How a wheel files a deadline at a moment: the first wheel lets deadlines wrap around, the second
      keeps those beyond the wrap in its overflow list. */
  datatype Filing = Wrapping(time: nat) | Overflowing(time: nat) {
    function At(expire: nat): Slot {
      if expire >= WRAP || (Overflowing? && expire < time) then Overflow else SlotOf(expire, time)
    }
  }

  /** The list that is cascaded when the time has become `time`, if any. */
  datatype Cascade = Nothing | Move(level: nat, idx: nat)

  function CascadeAt(time: nat): (c: Cascade)
    requires time < WRAP
    ensures c.Move? ==> InWheel(Far(c.level, c.idx))
  {
    if time == 0 then Move(3, 0)
    else if time % NEAR != 0 then Nothing
    else CascadeFrom(time, 0)
  }

  function CascadeFrom(time: nat, level: nat): (c: Cascade)
    requires 0 < time < WRAP && level < 4 && time % Unit(level) == 0
    ensures c.Move? && c.level < 4 && 0 < c.idx < LEVEL
    decreases 4 - level
  {
    var idx := Quot(time, level) % LEVEL;
    if idx != 0 then Move(level, idx)
    else
      DigitZero(time, level);
      CascadeFrom(time, level + 1)
  }

  lemma DigitZero(time: nat, level: nat)
    requires 0 < time < WRAP && level < 4
    requires time % Unit(level) == 0 && Quot(time, level) % LEVEL == 0
    ensures level < 3 && time % Unit(level + 1) == 0
  {
  }

  /** A deadline strictly ahead of the time, either plainly or past the wrap and far enough away. */
  predicate Ahead(expire: nat, time: nat) {
    expire > time || time - expire >= Unit(3)
  }

  predicate Below(s: Slot, level: nat) {
    s.Near? || (s.Far? && s.level < level)
  }

  /** The cascade lemma.  Advancing the time leaves every deadline outside the cascaded list where it
      is, at the cascaded level or above, and sends every deadline of that list strictly below. */
  lemma AdvanceMovesOneList(expire: nat, time: nat)
    requires expire < WRAP && time < WRAP && Ahead(expire, time)
    ensures
      var next := (time + 1) % WRAP;
      var c := CascadeAt(next);
      var was := SlotOf(expire, time);
      var now := SlotOf(expire, next);
      match c
      case Nothing => now == was
      case Move(l, i) =>
        if was == Far(l, i) then Below(now, l) else now == was && !Below(now, l)
  {
    var next := (time + 1) % WRAP;
    if next == 0 {
      AdvanceWraps(expire, time);
    } else if next % NEAR != 0 {
      AdvanceWithinBlock(expire, time);
    } else {
      CascadeIsLowestNonzeroDigit(next, 0);
      AdvanceCarries(expire, time, CascadeAt(next).level);
    }
  }

  lemma AdvanceWraps(expire: nat, time: nat)
    requires expire < WRAP && time == WRAP - 1 && Ahead(expire, time)
    ensures SlotOf(expire, time) == Far(3, Quot(expire, 3) % LEVEL)
    ensures if expire < Unit(3) then Below(SlotOf(expire, 0), 3) else SlotOf(expire, 0) == SlotOf(expire, time)
  {
    Quotients(expire);
  }

  lemma AdvanceWithinBlock(expire: nat, time: nat)
    requires expire < WRAP && time + 1 < WRAP && (time + 1) % NEAR != 0
    ensures SlotOf(expire, time + 1) == SlotOf(expire, time)
  {
    assert Quot(time + 1, 0) == Quot(time, 0);
    Quotients(time);
    Quotients(time + 1);
  }

  lemma AdvanceCarries(expire: nat, time: nat, l: nat)
    requires expire < WRAP && time + 1 < WRAP && Ahead(expire, time)
    requires l < 4 && (time + 1) % Unit(l) == 0 && Quot(time + 1, l) % LEVEL != 0
    ensures
      var next := time + 1;
      var was := SlotOf(expire, time);
      var now := SlotOf(expire, next);
      if was == Far(l, Quot(next, l) % LEVEL) then Below(now, l) else now == was && !Below(now, l)
  {
    var next := time + 1;
    LastOfBlock(expire, time, l);
    CarryQuotients(time, l);
    if Quot(expire, l) == Quot(next, l) {
      CarryReaches(expire, time, next, l);
    } else {
      CarryMisses(expire, time, next, l);
    }
  }

  predicate SameHigher(x: nat, y: nat, l: nat) {
    forall j | l < j <= 4 :: Quot(x, j) == Quot(y, j)
  }

  lemma CarryReaches(expire: nat, time: nat, next: nat, l: nat)
    requires expire < WRAP && time < WRAP && next < WRAP && l < 4
    requires SameHigher(time, next, l) && Quot(time, l) != Quot(expire, l) && Quot(expire, l) == Quot(next, l)
    ensures SlotOf(expire, time) == Far(l, Quot(next, l) % LEVEL) && Below(SlotOf(expire, next), l)
  {
    HigherQuotient(expire, next, l);
    DiffersFrom(expire, time, l);
    AgreesFrom(expire, next, l);
    LevelAtMost(expire, time, l);
  }

  lemma CarryMisses(expire: nat, time: nat, next: nat, l: nat)
    requires expire < WRAP && time < WRAP && next < WRAP && l < 4
    requires SameHigher(time, next, l) && Quot(time, l) != Quot(expire, l) && Quot(expire, l) != Quot(next, l)
    ensures SlotOf(expire, time) == SlotOf(expire, next) && SlotOf(expire, next) != Far(l, Quot(next, l) % LEVEL)
    ensures !Below(SlotOf(expire, next), l)
  {
    DiffersFrom(expire, time, l);
    DiffersFrom(expire, next, l);
    LevelSame(expire, time, next, l);
    OtherDigit(expire, next, l);
  }

  lemma OtherDigit(x: nat, y: nat, l: nat)
    requires x < WRAP && y < WRAP && l < 4 && Quot(x, l) != Quot(y, l)
    ensures SlotOf(x, y) != Far(l, Quot(y, l) % LEVEL)
  {
    DiffersFrom(x, y, l);
    if LevelOf(x, y) == l && Quot(x, l) % LEVEL == Quot(y, l) % LEVEL {
      DigitsDecide(x, y, l);
    }
  }

  lemma HigherQuotient(x: nat, y: nat, l: nat)
    requires x < WRAP && y < WRAP && l < 4 && Quot(x, l) == Quot(y, l)
    ensures Quot(x, l + 1) == Quot(y, l + 1)
  {
    Quotients(x);
    Quotients(y);
  }

  lemma LevelAtMost(x: nat, y: nat, l: nat)
    requires l < 4 && Quot(x, l + 1) == Quot(y, l + 1)
    ensures LevelOf(x, y) <= l
  {
  }

  lemma LevelSame(x: nat, y: nat, z: nat, l: nat)
    requires l < 4 && SameHigher(y, z, l) && l <= LevelOf(x, y) && l <= LevelOf(x, z)
    ensures LevelOf(x, y) == LevelOf(x, z)
  {
  }

  /** The last moment of a block has nothing ahead of it in that block. */
  lemma LastOfBlock(expire: nat, time: nat, l: nat)
    requires l < 4 && (time + 1) % Unit(l) == 0 && Ahead(expire, time)
    ensures Quot(expire, l) != Quot(time, l)
  {
  }

  /** A carry into digit l steps the quotients up to that digit and leaves the higher ones alone. */
  lemma CarryQuotients(time: nat, l: nat)
    requires time + 1 < WRAP
    requires l < 4 && (time + 1) % Unit(l) == 0 && Quot(time + 1, l) % LEVEL != 0
    ensures Quot(time + 1, l) == Quot(time, l) + 1
    ensures SameHigher(time, time + 1, l)
  {
    Quotients(time);
    Quotients(time + 1);
  }

  /** Times that differ in a quotient differ in all the lower ones, so the level is at least that. */
  lemma DiffersFrom(x: nat, y: nat, l: nat)
    requires x < WRAP && y < WRAP && l < 4 && Quot(x, l) != Quot(y, l)
    ensures SlotOf(x, y) == Far(LevelOf(x, y), Quot(x, LevelOf(x, y)) % LEVEL) && l <= LevelOf(x, y)
  {
    Quotients(x);
    Quotients(y);
  }

  lemma AgreesFrom(x: nat, y: nat, l: nat)
    requires x < WRAP && y < WRAP && l <= 4 && Quot(x, l) == Quot(y, l)
    ensures Below(SlotOf(x, y), l)
  {
    Quotients(x);
    Quotients(y);
  }

  /** The digit at a level decides the quotient when the next quotient is known. */
  lemma DigitsDecide(x: nat, y: nat, l: nat)
    requires x < WRAP && y < WRAP && l < 4 && LevelOf(x, y) <= l
    requires Quot(x, l) % LEVEL == Quot(y, l) % LEVEL
    ensures Quot(x, l) == Quot(y, l)
  {
    Quotients(x);
    Quotients(y);
  }

  lemma Quotients(x: nat)
    requires x < WRAP
    ensures Quot(x, 1) == Quot(x, 0) / 64 && Quot(x, 2) == Quot(x, 1) / 64
    ensures Quot(x, 3) == Quot(x, 2) / 64 && Quot(x, 3) < 64
  {
  }

  lemma CascadeIsLowestNonzeroDigit(time: nat, level: nat)
    requires 0 < time < WRAP && level < 4 && time % Unit(level) == 0
    ensures
      var c := CascadeFrom(time, level);
      c.Move? && level <= c.level < 4 && time % Unit(c.level) == 0 &&
      c.idx == Quot(time, c.level) % LEVEL != 0
    decreases 4 - level
  {
    if Quot(time, level) % LEVEL == 0 {
      DigitZero(time, level);
      CascadeIsLowestNonzeroDigit(time, level + 1);
    }
  }

  /** Only a deadline that is now sits in the near list of the current time. */
  lemma OnlyNowIsNear(expire: nat, time: nat)
    requires expire < WRAP && time < WRAP
    ensures SlotOf(expire, time) == Near(time % NEAR) <==> expire == time
  {
    assert expire == NEAR * (expire / NEAR) + expire % NEAR && time == NEAR * (time / NEAR) + time % NEAR;
  }
}
