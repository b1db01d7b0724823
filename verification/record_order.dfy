/** Ordering of records for the list endpoints: the collection as a
    sequence, and a sort on a timestamp field, newest first. The database
    leaves the order of equal timestamps open; this model fixes one. */
module RecordOrder {
  import opened NftMetadata

  datatype SortField = ByLastUpdated | ByCreatedAt

  function SortKey(f: SortField, r: Record): nat {
    match f
    case ByLastUpdated => r.lastUpdated
    case ByCreatedAt => r.createdAt
  }

  /** Newest first on field `f`. */
  predicate SortedDesc(rs: seq<Record>, f: SortField) {
    forall i, j :: 0 <= i < j < |rs| ==> SortKey(f, rs[i]) >= SortKey(f, rs[j])
  }

  /** Inserts `x` in front of the first record that is not newer than it. */
  function Insert(x: Record, rs: seq<Record>, f: SortField): (r: seq<Record>)
    requires SortedDesc(rs, f)
    ensures SortedDesc(r, f)
    ensures multiset(r) == multiset(rs) + multiset{x}
    ensures |r| == |rs| + 1 && (r[0] == x || (|rs| > 0 && r[0] == rs[0]))
  {
    if rs == [] || SortKey(f, x) >= SortKey(f, rs[0]) then
      ConsSorted(x, rs, f);
      [x] + rs
    else
      SortedTail(rs, f);
      var tail := Insert(x, rs[1..], f);
      ConsSorted(rs[0], tail, f);
      assert rs == [rs[0]] + rs[1..];
      [rs[0]] + tail
  }

  /** Dropping the newest record keeps the rest sorted, none newer than it. */
  lemma SortedTail(rs: seq<Record>, f: SortField)
    requires SortedDesc(rs, f) && |rs| > 0
    ensures SortedDesc(rs[1..], f)
    ensures |rs| > 1 ==> SortKey(f, rs[0]) >= SortKey(f, rs[1])
  {
  }

  /** In a newest-first sequence, a record that is not among the first
      `|prefix|` is no newer than any of them. */
  lemma OffPrefixNoNewer(rs: seq<Record>, prefix: seq<Record>, f: SortField, x: Record)
    requires SortedDesc(rs, f) && x in rs && x !in prefix
    requires |prefix| <= |rs| && forall i :: 0 <= i < |prefix| ==> prefix[i] == rs[i]
    ensures forall i :: 0 <= i < |prefix| ==> SortKey(f, x) <= SortKey(f, prefix[i])
  {
    var j :| 0 <= j < |rs| && rs[j] == x;
    assert forall i :: 0 <= i < |prefix| ==> rs[i] != x;
    assert |prefix| <= j;
  }

  /** A record no older than the head of a sorted sequence can go in front. */
  lemma ConsSorted(h: Record, t: seq<Record>, f: SortField)
    requires SortedDesc(t, f)
    requires |t| == 0 || SortKey(f, h) >= SortKey(f, t[0])
    ensures SortedDesc([h] + t, f)
  {
    var r := [h] + t;
    forall i, j | 0 <= i < j < |r|
      ensures SortKey(f, r[i]) >= SortKey(f, r[j])
    {
      if i == 0 {
        assert r[j] == t[j - 1];
        assert SortKey(f, t[0]) >= SortKey(f, t[j - 1]);
      } else {
        assert r[i] == t[i - 1] && r[j] == t[j - 1];
      }
    }
  }

  /** A permutation of `rs`, newest first on field `f`. */
  function Sort(rs: seq<Record>, f: SortField): (r: seq<Record>)
    ensures SortedDesc(r, f)
    ensures multiset(r) == multiset(rs)
  {
    if rs == [] then []
    else
      assert rs == [rs[0]] + rs[1..];
      Insert(rs[0], Sort(rs[1..], f), f)
  }

  /** The keys under which `x` is filed. */
  ghost function KeysHolding(s: Store, x: Record): set<int> {
    set k | k in s && s[k] == x
  }

  /** Every stored record, in some order, once for each key it is filed
      under. */
  ghost function RecordList(s: Store): (r: seq<Record>)
    ensures |r| == |s|
    ensures forall k :: k in s ==> s[k] in r
    ensures forall x :: x in r <==> IsStored(s, x)
    ensures forall x :: multiset(r)[x] == |KeysHolding(s, x)|
  {
    if s == map[] then
      assert forall x :: KeysHolding(s, x) == {};
      []
    else
      var k := PickKey(s);
      var rest := s - {k};
      assert s.Keys == rest.Keys + {k};
      StoredSplit(s, k);
      var r := [s[k]] + RecordList(rest);
      assert forall x :: multiset(r)[x] == |KeysHolding(s, x)| by {
        forall x
          ensures multiset(r)[x] == |KeysHolding(s, x)|
        {
          KeysHoldingSplit(s, k, x);
        }
      }
      r
  }

  /** Taking key `k` out of the store takes it out of the keys of its
      record and of no other. */
  lemma KeysHoldingSplit(s: Store, k: int, x: Record)
    requires k in s
    ensures |KeysHolding(s, x)| == |KeysHolding(s - {k}, x)| + (if s[k] == x then 1 else 0)
  {
    var rest := s - {k};
    if s[k] == x {
      assert KeysHolding(s, x) == KeysHolding(rest, x) + {k};
      assert k !in KeysHolding(rest, x);
    } else {
      assert KeysHolding(s, x) == KeysHolding(rest, x);
    }
  }

  /** In a valid store each record is filed under its own token id only. */
  lemma FiledOnce(s: Store, k: int)
    requires Valid(s) && k in s
    ensures KeysHolding(s, s[k]) == {k}
  {
    forall j | j in KeysHolding(s, s[k])
      ensures j == k
    {
      assert ValidRecord(j, s[j]) && ValidRecord(k, s[k]);
    }
  }

  /** A record of `s` is either the one at `k` or a record of the rest. */
  lemma StoredSplit(s: Store, k: int)
    requires k in s
    ensures forall x :: IsStored(s, x) <==> x == s[k] || IsStored(s - {k}, x)
  {
    forall x
      ensures IsStored(s, x) <==> x == s[k] || IsStored(s - {k}, x)
    {
      if IsStored(s, x) {
        var j :| j in s && s[j] == x;
        if j != k {
          assert j in s - {k} && (s - {k})[j] == x;
        }
      }
      if x == s[k] {
        assert k in s && s[k] == x;
      } else if IsStored(s - {k}, x) {
        var j :| j in s - {k} && (s - {k})[j] == x;
        assert j in s && s[j] == x;
      }
    }
  }

  ghost function PickKey(s: Store): (k: int)
    requires s != map[]
    ensures k in s
  {
    assert exists k :: k in s by {
      if forall k :: k !in s {
        assert false;
      }
    }
    var k :| k in s;
    k
  }
}
