/** The few facts about Go strings that several parts of the model share.  A Go
    string is a sequence of bytes; here each char stands for one byte. */
module Text {

  predicate OccursAt(s: string, v: string, k: int) {
    0 <= k <= |s| - |v| && s[k..k + |v|] == v
  }

  /** strings.Contains */
  predicate Contains(s: string, v: string) {
    exists k | 0 <= k <= |s| - |v| :: OccursAt(s, v, k)
  }

  /** The byte-wise order of Go's < on strings. */
  predicate Less(a: string, b: string) {
    b != "" && (a == "" || a[0] < b[0] || (a[0] == b[0] && Less(a[1..], b[1..])))
  }

  predicate Sorted(keys: seq<string>) {
    forall i, j :: 0 <= i < j < |keys| ==> Less(keys[i], keys[j])
  }

  lemma {:induction false} LessIrreflexive(a: string)
    ensures !Less(a, a)
  {
    if a != "" { LessIrreflexive(a[1..]); }
  }

  lemma {:induction false} LessTotal(a: string, b: string)
    ensures Less(a, b) || a == b || Less(b, a)
  {
    if a != "" && b != "" && a[0] == b[0] {
      LessTotal(a[1..], b[1..]);
      if a[1..] == b[1..] { assert a == [a[0]] + a[1..] == b; }
    }
  }

  lemma {:induction false} LessTransitive(a: string, b: string, c: string)
    requires Less(a, b) && Less(b, c)
    ensures Less(a, c)
  {
    if a != "" && a[0] == b[0] == c[0] { LessTransitive(a[1..], b[1..], c[1..]); }
  }

  // ----- the same two notions, said without their definitions

  /** At the first difference the smaller byte comes first; a proper beginning comes
      before the whole. */
  ghost predicate ByteOrder(a: string, b: string) {
    exists k :: 0 <= k <= |a| && k < |b| && a[..k] == b[..k] && (k == |a| || a[k] < b[k])
  }

  lemma {:induction false} LessIsByteOrder(a: string, b: string)
    ensures Less(a, b) <==> ByteOrder(a, b)
  {
    if a != "" && b != "" && a[0] == b[0] {
      var c, d := a[1..], b[1..];
      LessIsByteOrder(c, d);
      if k :| 0 <= k <= |a| && k < |b| && a[..k] == b[..k] && (k == |a| || a[k] < b[k]) {
        assert k > 0 && c[..k - 1] == a[..k][1..] && d[..k - 1] == b[..k][1..];
        assert ByteOrder(c, d);
      }
      if k :| 0 <= k <= |c| && k < |d| && c[..k] == d[..k] && (k == |c| || c[k] < d[k]) {
        assert a[..k + 1] == [a[0]] + c[..k] && b[..k + 1] == [b[0]] + d[..k];
        assert ByteOrder(a, b);
      }
    } else if Less(a, b) {
      assert a[..0] == b[..0];
    } else if k :| 0 <= k <= |a| && k < |b| && a[..k] == b[..k] && (k == |a| || a[k] < b[k]) {
      if k > 0 { assert a[..k][0] == b[..k][0]; }
    }
  }

  ghost predicate Around(s: string, before: string, v: string, after: string) { s == before + v + after }

  lemma ContainsMeansAround(s: string, v: string)
    ensures Contains(s, v) <==> exists a, b :: Around(s, a, v, b)
  {
    if Contains(s, v) {
      var k :| 0 <= k <= |s| - |v| && OccursAt(s, v, k);
      assert s == s[..k] + s[k..k + |v|] + s[k + |v|..];
      assert Around(s, s[..k], v, s[k + |v|..]);
    }
    if a, b :| Around(s, a, v, b) {
      assert s[|a|..|a| + |v|] == v;
      assert OccursAt(s, v, |a|);
    }
  }

  // ----- sorting

  /** sortedKeys: the elements of a set in increasing order. */
  method SortedKeys(m: set<string>) returns (keys: seq<string>)
    ensures Sorted(keys)
    ensures forall k :: k in keys <==> k in m
  {
    keys := [];
    var rest := m;
    while rest != {}
      invariant rest <= m
      invariant Sorted(keys)
      invariant forall k :: k in m <==> k in keys || k in rest
      invariant forall k, r :: k in keys && r in rest ==> Less(k, r)
    {
      var least := Least(rest);
      keys, rest := keys + [least], rest - {least};
    }
  }

  method Least(m: set<string>) returns (least: string)
    requires m != {}
    ensures least in m && forall k :: k in m && k != least ==> Less(least, k)
  {
    least :| least in m;
    var rest := m - {least};
    while rest != {}
      invariant rest <= m && least in m && least !in rest
      invariant forall k :: k in m && k != least && k !in rest ==> Less(least, k)
    {
      var k :| k in rest;
      LessTotal(least, k);
      if Less(k, least) {
        forall j | j in m && j != k && j !in rest && j != least ensures Less(k, j) {
          LessTransitive(k, least, j);
        }
        least := k;
      }
      rest := rest - {k};
    }
  }
}
