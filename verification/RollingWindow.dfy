/** The fixed-size circular buffer of the signal engine. */
module RollingWindow {
  import opened MachineInts
  import W = Welford

  /** The last `n` elements of a history, oldest first. */
  function LastN<T>(h: seq<T>, n: nat): (r: seq<T>)
    ensures |r| == if |h| <= n then |h| else n
  {
    if |h| <= n then h else h[|h| - n..]
  }

  /** Dropping the oldest of a full window is the window of the longer history. */
  lemma LastNPush<T>(h: seq<T>, n: nat, x: T)
    requires n > 0
    ensures LastN(h + [x], n) ==
            (if |LastN(h, n)| < n then LastN(h, n) else LastN(h, n)[1..]) + [x]
  {
  }

  /** Where logical index `i` lives. */
  function Position(head: nat, count: nat, i: nat, n: nat): (p: nat)
    requires head < n && i < count <= n
    ensures p < n
  {
    var x := head + n - count + i;
    if x < n then x else x - n
  }

  lemma PositionIsMod(head: nat, count: nat, i: nat, n: nat)
    requires head < n && i < count <= n
    ensures (head + n - count + i) % n == Position(head, count, i, n)
  {
    var x := head + n - count + i;
    if x < n { ModUnique(x, n, 0, x); } else { ModUnique(x, n, 1, x - n); }
  }

  class Window<T(0)> {
    const buf: array<T>
    var head: nat
    var count: nat
    ghost var pushed: seq<T>     // everything pushed since the last clear

    ghost predicate Valid()
      reads this, buf
    {
      && 0 < buf.Length && head < buf.Length
      && count == |Contents()|
      && forall i | 0 <= i < count :: buf[Position(head, count, i, buf.Length)] == Contents()[i]
    }

    ghost function Contents(): (c: seq<T>)
      reads this
      ensures |c| <= buf.Length
    {
      LastN(pushed, buf.Length)
    }

    constructor (n: nat, zero: T)
      requires n > 0
      ensures Valid() && pushed == [] && buf.Length == n && fresh(buf)
    {
      buf := new T[n](_ => zero);
      head, count, pushed := 0, 0, [];
    }

    method Push(val: T)
      requires Valid()
      modifies this, buf
      ensures Valid() && pushed == old(pushed) + [val]
    {
      LastNPush(pushed, buf.Length, val);
      ghost var before, h, c := Contents(), head, count;
      buf[head] := val;
      StepMod(head, buf.Length);
      head := (head + 1) % buf.Length;
      if count < buf.Length { count := count + 1; }
      pushed := pushed + [val];
      var n := buf.Length;
      forall i | 0 <= i < count ensures buf[Position(head, count, i, n)] == Contents()[i] {
        if i < count - 1 {
          var j := if c < n then i else i + 1;
          assert Position(head, count, i, n) == Position(h, c, j, n) != h;
          assert Contents()[i] == before[j];
        }
      }
    }

    /** operator[]: 0 is the oldest. */
    method At(i: nat) returns (x: T)
      requires Valid() && i < count
      ensures x == Contents()[i]
    {
      PositionIsMod(head, count, i, buf.Length);
      x := buf[(head + buf.Length - count + i) % buf.Length];
    }

    method Clear(zero: T)
      requires 0 < buf.Length
      modifies this, buf
      ensures Valid() && pushed == []
    {
      for i := 0 to buf.Length
      {
        buf[i] := zero;
      }
      head, count, pushed := 0, 0, [];
    }
  }

  method Mean(w: Window<real>) returns (m: real)
    requires w.Valid()
    ensures m == W.Mean(w.Contents())
  {
    if w.count == 0 { return 0.0; }
    ghost var c := w.Contents();
    var sum := 0.0;
    for i := 0 to w.count
      invariant sum == W.Sum(c[..i])
    {
      assert c[..i + 1][..i] == c[..i];
      var x := w.At(i);
      sum := sum + x;
    }
    assert c[..w.count] == c;
    m := sum / w.count as real;
  }

  /** The square of the population standard deviation the program returns. */
  ghost function PopulationVariance(h: seq<real>): real {
    if |h| < 2 then 0.0 else W.SquaredDeviations(h, W.Mean(h)) / |h| as real
  }

  /** It is the mean squared deviation from the mean: divided by how many there are. */
  lemma VarianceTimesCount(h: seq<real>)
    ensures |h| >= 2 ==> PopulationVariance(h) * |h| as real == W.SquaredDeviations(h, W.Sum(h) / |h| as real)
    ensures |h| < 2 ==> PopulationVariance(h) == 0.0
  {
    if |h| >= 2 {
      var mean := W.Mean(h);
      var q := W.QuotientTimes(W.SquaredDeviations(h, mean), |h| as real);
      assert PopulationVariance(h) == q;
    }
  }

  method Variance(w: Window<real>) returns (v: real)
    requires w.Valid()
    ensures v == PopulationVariance(w.Contents())
    ensures
      var c := w.Contents();
      if |c| < 2 then v == 0.0 else v * |c| as real == W.SquaredDeviations(c, W.Mean(c))
  {
    VarianceTimesCount(w.Contents());
    if w.count < 2 { return 0.0; }
    var m := Mean(w);
    var sum := Deviations(w, m);
    v := sum / w.count as real;
  }

  /** The loop of `stddev`. */
  method Deviations(w: Window<real>, m: real) returns (sum: real)
    requires w.Valid()
    ensures sum == W.SquaredDeviations(w.Contents(), m)
  {
    ghost var c := w.Contents();
    sum := 0.0;
    for i := 0 to w.count
      invariant sum == W.SquaredDeviations(c[..i], m)
    {
      var x := w.At(i);
      var d := x - m;
      W.DeviationsSnoc(c[..i], x, m);
      assert c[..i + 1] == c[..i] + [x];
      sum := sum + d * d;
    }
    assert c[..w.count] == c;
  }
}
