/** Evicting the oldest entries of a dictionary of timestamps. */
module OldestFirst {

  /** m' is m without n entries, none of which is newer than an entry that stays. */
  ghost predicate OldestRemoved<K>(m: map<K, int>, n: nat, m': map<K, int>) {
    && m'.Keys <= m.Keys
    && |m'| + n == |m|
    && (forall k | k in m' :: m'[k] == m[k])
    && (forall k, l | k in m && k !in m' && l in m' :: m[k] <= m[l])
  }

  lemma {:induction false} OldestExists<K>(m: map<K, int>) returns (k: K)
    requires m != map[]
    ensures k in m && forall l | l in m :: m[k] <= m[l]
    decreases |m|
  {
    k :| k in m;
    var rest := m - {k};
    assert forall x | x in m && x != k :: x in rest && rest[x] == m[x];
    if rest != map[] {
      assert m.Keys == rest.Keys + {k};
      assert |rest.Keys| < |m.Keys|;
      var l := OldestExists(rest);
      if m[l] < m[k] {
        k := l;
      }
    }
  }

  lemma {:induction false} RemovalExists<K>(m: map<K, int>, n: nat) returns (m': map<K, int>)
    requires n <= |m|
    ensures OldestRemoved(m, n, m')
  {
    if n == 0 {
      m' := m;
    } else {
      var before := RemovalExists(m, n - 1);
      var k := OldestExists(before);
      m' := before - {k};
      assert before.Keys == m'.Keys + {k};
      assert |before.Keys| == |m'.Keys| + 1;
    }
  }

  /** sorted(m.items(), key=timestamp)[:n], deleted from m */
  method TrimOldest<K(==)>(m: map<K, int>, n: nat) returns (m': map<K, int>)
    requires n <= |m|
    ensures OldestRemoved(m, n, m')
  {
    m' := m;
    for i := 0 to n
      invariant OldestRemoved(m, i, m')
    {
      assert m' != map[] by {
        assert |m'| > 0;
      }
      ghost var oldest := OldestExists(m');
      assert exists k :: k in m' && forall l | l in m' :: m'[k] <= m'[l];
      var k :| k in m' && forall l | l in m' :: m'[k] <= m'[l];
      ghost var before := m';
      m' := m' - {k};
      assert before.Keys == m'.Keys + {k};
      assert |before.Keys| == |m'.Keys| + 1;
    }
  }
}
