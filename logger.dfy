/**
 * The log line's elapsed-time stamp: the free function `time(Timer)`
 * turns the timer's elapsed count into "hr:min:sec:rem" by successive
 * division and subtraction (3 600 000, 60 000 and 1 000 counts per hour,
 * minute and second).  The count is a parameter here; the timer itself is not
 * part of this model.
 */
module Logger {
  import opened Bytes
  import opened Text

  const PerHour := 3_600_000
  const PerMinute := 60_000
  const PerSecond := 1_000

  /** The four fields of the stamp. */
  datatype Clock = Clock(hr: int, min: int, sec: int, rem: int)

  /** The decomposition the stamp is meant to show: whole hours, then what is left. */
  function Decompose(t: nat): Clock
  {
    Clock(t / PerHour, t % PerHour / PerMinute, t % PerMinute / PerSecond, t % PerSecond)
  }

  /** The fields in order, separated by ':'. */
  function Render(hr: nat, min: nat, sec: nat, rem: nat): string
  {
    Decimal(hr) + ":" + (Decimal(min) + ":" + (Decimal(sec) + ":" + Decimal(rem)))
  }

  function Stamp(t: nat): string
  {
    var c := Decompose(t);
    Render(c.hr, c.min, c.sec, c.rem)
  }

  lemma DivMod(t: nat, d: nat)
    requires d > 0
    ensures t - t / d * d == t % d && 0 <= t % d < d
  {
  }

  /** Taking the remainder by a multiple of `d` first does not change the remainder by `d`. */
  lemma ModOfMod(t: nat, d: nat, k: nat)
    requires d > 0 && k > 0
    ensures t % (k * d) % d == t % d
  {
    var q, r := t / (k * d), t % (k * d);
    assert t == (q * k) * d + r;
    var q', r' := r / d, r % d;
    assert r == q' * d + r';
    assert t == (q * k + q') * d + r';
    DivModUnique(t, d, q * k + q', r');
  }

  /** The stamp's fields are in range and recompose to the count. */
  lemma DecomposeBounds(t: nat)
    ensures Decompose(t).hr == t / PerHour
    ensures 0 <= Decompose(t).min < 60 && 0 <= Decompose(t).sec < 60 && 0 <= Decompose(t).rem < 1000
    ensures Decompose(t).hr * PerHour + Decompose(t).min * PerMinute + Decompose(t).sec * PerSecond + Decompose(t).rem == t
  {
    var r1 := t % PerHour;
    DivMod(t, PerHour);
    var r2 := r1 % PerMinute;
    DivMod(r1, PerMinute);
    ModOfMod(t, PerMinute, 60);
    var r3 := r2 % PerSecond;
    DivMod(r2, PerSecond);
    ModOfMod(t, PerSecond, 60);
    ModOfMod(r1, PerSecond, 60);
    assert r1 / PerMinute < 60;
    assert r2 / PerSecond < 60;
  }

  /**
   * time(Timer) with exact arithmetic: successive subtractions leave the
   * fields of Decompose, printed in order.
   */
  method Time(elapsed: uint64) returns (s: string)
    ensures s == Stamp(elapsed)
  {
    var time: nat := elapsed;
    var hr := time / PerHour;
    DivMod(time, PerHour);
    time := time - hr * PerHour;
    var min := time / PerMinute;
    DivMod(time, PerMinute);
    time := time - min * PerMinute;
    var sec := time / PerSecond;
    DivMod(time, PerSecond);
    time := time - sec * PerSecond;
    ModOfMod(elapsed, PerMinute, 60);
    ModOfMod(elapsed, PerSecond, 60);
    s := Render(hr, min, sec, time);
  }

  /** Different counts give different stamps: the stamp identifies the count. */
  lemma StampInjective(t: nat, u: nat)
    requires Stamp(t) == Stamp(u)
    ensures t == u
  {
    var a, b := Decompose(t), Decompose(u);
    DecomposeBounds(t);
    DecomposeBounds(u);
    SplitDecimal(a.hr, Decimal(a.min) + ":" + (Decimal(a.sec) + ":" + Decimal(a.rem)),
                 b.hr, Decimal(b.min) + ":" + (Decimal(b.sec) + ":" + Decimal(b.rem)));
    SplitDecimal(a.min, Decimal(a.sec) + ":" + Decimal(a.rem), b.min, Decimal(b.sec) + ":" + Decimal(b.rem));
    SplitDecimal(a.sec, Decimal(a.rem), b.sec, Decimal(b.rem));
    DecimalInjective(a.rem, b.rem);
  }

  lemma SplitDecimal(m: nat, y: string, n: nat, z: string)
    requires Decimal(m) + ":" + y == Decimal(n) + ":" + z
    ensures m == n && y == z
  {
    DigitsHaveNo(Decimal(m), ':');
    DigitsHaveNo(Decimal(n), ':');
    SplitAtSeparator(Decimal(m), y, Decimal(n), z, ':');
    DecimalInjective(m, n);
  }

  /** Two's-complement reduction to a 32-bit `int`, as the target compiler wraps. */
  function Int32(x: int): int32
  {
    (x + 0x8000_0000) % 0x1_0000_0000 - 0x8000_0000
  }

  /** Reduction to `uint64_t`. */
  function Uint64(x: int): uint64
  {
    x % 0x1_0000_0000_0000_0000
  }

  /**
   * time(Timer) as written: `hr`, `min` and `sec` are `int`, so each of
   * `hr * 3600000`, `min * 60000` and `sec * 1000` is an `int` product
   * that wraps at 32 bits before being subtracted from the `uint64_t`.
   */
  function TimeAsWritten(elapsed: uint64): (c: Clock)
    ensures -0x8000_0000 <= c.hr < 0x8000_0000 && -0x8000_0000 <= c.min < 0x8000_0000
    ensures -0x8000_0000 <= c.sec < 0x8000_0000 && 0 <= c.rem < 0x1_0000_0000_0000_0000
    ensures Uint64(Int32(c.hr * PerHour) + Int32(c.min * PerMinute) + Int32(c.sec * PerSecond) + c.rem) == elapsed
  {
    var hr := Int32(elapsed / PerHour);
    var t1 := Uint64(elapsed - Int32(hr * PerHour));
    var min := Int32(t1 / PerMinute);
    var t2 := Uint64(t1 - Int32(min * PerMinute));
    var sec := Int32(t2 / PerSecond);
    var t3 := Uint64(t2 - Int32(sec * PerSecond));
    Recombine(elapsed, Int32(hr * PerHour), Int32(min * PerMinute), Int32(sec * PerSecond), t1, t2, t3);
    Clock(hr, min, sec, t3)
  }

  /** Three wrapped subtractions undone by one wrapped sum of what was subtracted. */
  lemma Recombine(e: uint64, a: int, b: int, d: int, t1: int, t2: int, t3: int)
    requires t1 == Uint64(e - a) && t2 == Uint64(t1 - b) && t3 == Uint64(t2 - d)
    ensures Uint64(a + b + d + t3) == e
  {
    Uint64SubAdd(d, t2);
    Uint64AddMod(a + b, d + t3);
    Uint64SubAdd(b, t1);
    Uint64AddMod(a, b + t2);
    Uint64SubAdd(a, e);
    assert a + (b + d + t3) == a + b + d + t3;
  }

  /** Adding back what was subtracted in `uint64_t` restores the value modulo 2^64. */
  lemma Uint64SubAdd(y: int, z: int)
    ensures Uint64(y + Uint64(z - y)) == Uint64(z)
  {
    var m := 0x1_0000_0000_0000_0000;
    var q := (z - y) / m;
    assert y + Uint64(z - y) == z - q * m;
    DivModUnique(z - q * m, m, z / m - q, z % m);
  }

  /** Reducing one addend modulo 2^64 does not change the reduced sum. */
  lemma Uint64AddMod(x: int, y: int)
    ensures Uint64(x + Uint64(y)) == Uint64(x + y)
  {
    var m := 0x1_0000_0000_0000_0000;
    var q := y / m;
    assert x + Uint64(y) == x + y - q * m;
    DivModUnique(x + y - q * m, m, (x + y) / m - q, (x + y) % m);
  }

  lemma Int32Identity(x: int)
    requires 0 <= x < 0x8000_0000
    ensures Int32(x) == x
  {
    DivModUnique(x + 0x8000_0000, 0x1_0000_0000, 0, x + 0x8000_0000);
  }

  lemma Uint64Identity(x: int)
    requires 0 <= x < 0x1_0000_0000_0000_0000
    ensures Uint64(x) == x
  {
    DivModUnique(x, 0x1_0000_0000_0000_0000, 0, x);
  }

  /** Below 597 hours' worth of counts the written arithmetic agrees with the decomposition. */
  lemma AsWrittenAgreesBelowOverflow(elapsed: uint64)
    requires elapsed < 597 * PerHour
    ensures TimeAsWritten(elapsed) == Decompose(elapsed)
  {
    var c := Decompose(elapsed);
    DecomposeBounds(elapsed);
    DivMod(elapsed, PerHour);
    var hr := elapsed / PerHour;
    Int32Identity(hr);
    Int32Identity(hr * PerHour);
    var t1 := elapsed - hr * PerHour;
    Uint64Identity(t1);
    DivMod(t1, PerMinute);
    var min := t1 / PerMinute;
    assert min == c.min;
    Int32Identity(min);
    Int32Identity(min * PerMinute);
    var t2 := t1 - min * PerMinute;
    Uint64Identity(t2);
    ModOfMod(elapsed, PerMinute, 60);
    assert t2 == elapsed % PerMinute;
    DivMod(t2, PerSecond);
    var sec := t2 / PerSecond;
    assert sec == c.sec;
    Int32Identity(sec);
    Int32Identity(sec * PerSecond);
    var t3 := t2 - sec * PerSecond;
    Uint64Identity(t3);
    ModOfMod(elapsed, PerSecond, 60);
    ModOfMod(t1, PerSecond, 60);
    assert t3 == c.rem;
  }

  /**
   * At 597 hours' worth of counts `hr * 3600000` exceeds 2^31 - 1: the
   * written stamp is 597:71582:4295014:4294967888 instead of 597:0:0:0.
   */
  lemma AsWrittenOverflows()
    ensures TimeAsWritten(597 * PerHour) == Clock(597, 71582, 4295014, 4294967888)
    ensures Decompose(597 * PerHour) == Clock(597, 0, 0, 0)
  {
    var e := 597 * PerHour;
    DivModUnique(e, PerHour, 597, 0);
    Int32Identity(597);
    DivModUnique(e + 0x8000_0000, 0x1_0000_0000, 1, 1716352);
    Uint64Identity(4294967296);
    DivModUnique(4294967296, PerMinute, 71582, 47296);
    Int32Identity(71582);
    DivModUnique(71582 * PerMinute + 0x8000_0000, 0x1_0000_0000, 1, 2147436352);
    Uint64Identity(4295014592);
    DivModUnique(4295014592, PerSecond, 4295014, 592);
    Int32Identity(4295014);
    DivModUnique(4295014 * PerSecond + 0x8000_0000, 0x1_0000_0000, 1, 2147530352);
    Uint64Identity(4294967888);
  }
}
