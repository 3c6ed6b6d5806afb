/** Sequences of clock values that never go back. */
module Clock {
  import opened MachineInts

  ghost predicate Rising(ts: seq<uint64>) {
    forall i, j | 0 <= i <= j < |ts| :: ts[i] <= ts[j]
  }

  lemma RisingExtends(ts: seq<uint64>, a: uint64, b: uint64)
    requires Rising(ts + [a]) && a <= b
    ensures Rising(ts + [b]) && Rising(ts + [a] + [b])
  {
    var u := ts + [a];
    forall i | 0 <= i < |ts| ensures ts[i] <= a { assert u[i] == ts[i] && u[|ts|] == a; }
    forall i, j | 0 <= i <= j < |ts| ensures ts[i] <= ts[j] { assert u[i] == ts[i] && u[j] == ts[j]; }
  }

  lemma PrefixRises(ts: seq<uint64>, t: uint64)
    requires Rising(ts + [t])
    ensures Rising(ts) && forall i | 0 <= i < |ts| :: ts[i] <= t
  {
    var us := ts + [t];
    forall i | 0 <= i < |ts| ensures ts[i] <= t { assert us[i] == ts[i] && us[|ts|] == t; }
    forall i, j | 0 <= i <= j < |ts| ensures ts[i] <= ts[j] { assert us[i] == ts[i] && us[j] == ts[j]; }
  }
}
