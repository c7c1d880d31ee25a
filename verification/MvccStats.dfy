/** The statistics kept for every range, and how they are added up. */
module MvccStats {
  import opened Common

  /** MVCC statistics; ages grow with time and are kept as of `lastUpdate`, in nanoseconds. */
  datatype Stats = Stats(
    lastUpdate: int, intentAge: int, gcBytesAge: int, containsEstimates: int,
    liveBytes: int, liveCount: int, keyBytes: int, keyCount: int, valBytes: int, valCount: int,
    intentBytes: int, intentCount: int, separatedIntentCount: int,
    sysBytes: int, sysCount: int, abortSpanBytes: int)

  const NO_STATS := Stats(0, 0, 0, 0, 0, 0, 0, 0, 0, 0, 0, 0, 0, 0, 0, 0)

  const SECOND := 1_000_000_000

  /** Whole seconds, rounded toward zero. */
  function Seconds(nanos: int): (s: int)
    ensures if nanos >= 0 then s * SECOND <= nanos < (s + 1) * SECOND else (s - 1) * SECOND < nanos <= s * SECOND
  {
    if nanos >= 0 then nanos / SECOND else -(-nanos / SECOND)
  }

  function GCBytes(s: Stats): int { s.keyBytes + s.valBytes - s.liveBytes }

  /** An age as of `now` that was `age` as of `last` and grows by `rate` a second. */
  function Aged(age: int, rate: int, last: int, now: int): int { age + rate * (Seconds(now) - Seconds(last)) }

  function AgeTo(s: Stats, now: int): Stats {
    s.(gcBytesAge := Aged(s.gcBytesAge, GCBytes(s), s.lastUpdate, now),
       intentAge := Aged(s.intentAge, s.intentCount, s.lastUpdate, now),
       lastUpdate := now)
  }

  function Forward(s: Stats, now: int): Stats { if s.lastUpdate >= now then s else AgeTo(s, now) }

  /** MVCCStats.Add: both are brought to the later of their times, and added field by field. */
  function Plus(a: Stats, b: Stats): Stats {
    var x := Forward(a, b.lastUpdate);
    var y := Forward(b, x.lastUpdate);
    Stats(x.lastUpdate, x.intentAge + y.intentAge, x.gcBytesAge + y.gcBytesAge,
          x.containsEstimates + y.containsEstimates,
          x.liveBytes + y.liveBytes, x.liveCount + y.liveCount, x.keyBytes + y.keyBytes, x.keyCount + y.keyCount,
          x.valBytes + y.valBytes, x.valCount + y.valCount,
          x.intentBytes + y.intentBytes, x.intentCount + y.intentCount,
          x.separatedIntentCount + y.separatedIntentCount, x.sysBytes + y.sysBytes, x.sysCount + y.sysCount,
          x.abortSpanBytes + y.abortSpanBytes)
  }

  lemma AgedHere(age: int, rate: int, last: int)
    ensures Aged(age, rate, last, last) == age
  {
  }

  /** Every field of a sum: as of the later time, both ages brought to that time, and the rest added up. */
  lemma PlusAddsUp(a: Stats, b: Stats)
    ensures var m, s := Max(a.lastUpdate, b.lastUpdate), Plus(a, b);
            && s.lastUpdate == m
            && s.intentAge == a.intentAge + a.intentCount * (Seconds(m) - Seconds(a.lastUpdate))
                              + (b.intentAge + b.intentCount * (Seconds(m) - Seconds(b.lastUpdate)))
            && s.gcBytesAge == a.gcBytesAge + GCBytes(a) * (Seconds(m) - Seconds(a.lastUpdate))
                               + (b.gcBytesAge + GCBytes(b) * (Seconds(m) - Seconds(b.lastUpdate)))
            && GCBytes(a) == a.keyBytes + a.valBytes - a.liveBytes
            && GCBytes(s) == GCBytes(a) + GCBytes(b)
            && s.containsEstimates == a.containsEstimates + b.containsEstimates
            && s.liveBytes == a.liveBytes + b.liveBytes && s.liveCount == a.liveCount + b.liveCount
            && s.keyBytes == a.keyBytes + b.keyBytes && s.keyCount == a.keyCount + b.keyCount
            && s.valBytes == a.valBytes + b.valBytes && s.valCount == a.valCount + b.valCount
            && s.intentBytes == a.intentBytes + b.intentBytes && s.intentCount == a.intentCount + b.intentCount
            && s.separatedIntentCount == a.separatedIntentCount + b.separatedIntentCount
            && s.sysBytes == a.sysBytes + b.sysBytes && s.sysCount == a.sysCount + b.sysCount
            && s.abortSpanBytes == a.abortSpanBytes + b.abortSpanBytes
  {
    AgedHere(a.intentAge, a.intentCount, a.lastUpdate);
    AgedHere(a.gcBytesAge, GCBytes(a), a.lastUpdate);
    AgedHere(b.intentAge, b.intentCount, b.lastUpdate);
    AgedHere(b.gcBytesAge, GCBytes(b), b.lastUpdate);
  }

  lemma Distribute(g: int, h: int, x: int, y: int, z: int)
    ensures g * x + h * y + (g + h) * z == g * (x + z) + h * (y + z)
  {
  }

  /** Ageing a sum is summing what has aged. */
  lemma AgedSum(age: int, rate: int, last: int, age': int, rate': int, last': int, m: int, now: int)
    ensures Aged(Aged(age, rate, last, m) + Aged(age', rate', last', m), rate + rate', m, now)
            == Aged(age, rate, last, now) + Aged(age', rate', last', now)
  {
    Distribute(rate, rate', Seconds(m) - Seconds(last), Seconds(m) - Seconds(last'), Seconds(now) - Seconds(m));
  }

  /** The ages of a sum of three, all as of the latest time. */
  lemma PlusThree(a: Stats, b: Stats, c: Stats)
    ensures var now, s := Max(Max(a.lastUpdate, b.lastUpdate), c.lastUpdate), Plus(Plus(a, b), c);
            && s.lastUpdate == now
            && s.intentAge == Aged(a.intentAge, a.intentCount, a.lastUpdate, now)
                              + Aged(b.intentAge, b.intentCount, b.lastUpdate, now)
                              + Aged(c.intentAge, c.intentCount, c.lastUpdate, now)
            && s.gcBytesAge == Aged(a.gcBytesAge, GCBytes(a), a.lastUpdate, now)
                               + Aged(b.gcBytesAge, GCBytes(b), b.lastUpdate, now)
                               + Aged(c.gcBytesAge, GCBytes(c), c.lastUpdate, now)
  {
    var m := Max(a.lastUpdate, b.lastUpdate);
    var now := Max(m, c.lastUpdate);
    PlusAddsUp(a, b);
    PlusAddsUp(Plus(a, b), c);
    AgedSum(a.intentAge, a.intentCount, a.lastUpdate, b.intentAge, b.intentCount, b.lastUpdate, m, now);
    AgedSum(a.gcBytesAge, GCBytes(a), a.lastUpdate, b.gcBytesAge, GCBytes(b), b.lastUpdate, m, now);
  }

  /** Statistics add up to the same in any order, ages included. */
  lemma PlusSwaps(a: Stats, b: Stats, c: Stats)
    ensures Plus(Plus(a, b), c) == Plus(Plus(a, c), b)
  {
    PlusThree(a, b, c);
    PlusThree(a, c, b);
  }
}
