/**
 * `DataFrame.groupby(key).agg(sum / count / mean / first)` over the table:
 * one group per distinct key, holding the rainfall sum and count, the
 * coordinate sums (for the coordinate means) and the first row's station name.
 * Groups are kept in order of first appearance; the order pandas gives them
 * (sorted by key) matters to no caller except through ties in a later sort.
 */
module Grouping {
  import opened Wrappers
  import opened Table

  datatype Group<K> = Group(key: K, total: real, count: nat, latSum: real, lonSum: real, firstName: string)

  function KeyOf<K>(g: Group<K>): K { g.key }
  function TotalOf<K>(g: Group<K>): real { g.total }
  function CountOf<K>(g: Group<K>): real { g.count as real }

  /** The group a key's first row opens. */
  function Start<K>(k: K, r: Row): Group<K> {
    Group(k, r.rainfallMm, 1, r.latitude, r.longitude, r.stationName)
  }

  /** A group after one more row; the first name stays. */
  function Merge<K>(g: Group<K>, r: Row): Group<K> {
    Group(g.key, g.total + r.rainfallMm, g.count + 1, g.latSum + r.latitude, g.lonSum + r.longitude, g.firstName)
  }

  /** The first group with key `k`. */
  function Find<K(==)>(gs: seq<Group<K>>, k: K): Option<Group<K>> {
    if gs == [] then None
    else if gs[0].key == k then Some(gs[0])
    else Find(gs[1..], k)
  }

  /** Adds row `r` under key `k`: merged into its group, or opening a new last group. */
  function Add<K(==)>(gs: seq<Group<K>>, k: K, r: Row): (gs': seq<Group<K>>)
    requires forall i :: 0 <= i < |gs| ==> gs[i].count > 0
    ensures forall i :: 0 <= i < |gs'| ==> gs'[i].count > 0
    ensures |gs'| == |gs| || |gs'| == |gs| + 1
    ensures forall i :: 0 <= i < |gs| ==> gs'[i].key == gs[i].key
    ensures |gs'| == |gs| + 1 ==> gs'[|gs|].key == k && Find(gs, k).None?
  {
    if gs == [] then [Start(k, r)]
    else if gs[0].key == k then [Merge(gs[0], r)] + gs[1..]
    else [gs[0]] + Add(gs[1..], k, r)
  }

  /** The groups of `rows` under `keyOf`, every one non-empty. */
  function GroupBy<K(==)>(rows: seq<Row>, keyOf: Row -> K): (gs: seq<Group<K>>)
    ensures forall i :: 0 <= i < |gs| ==> gs[i].count > 0
  {
    if rows == [] then []
    else
      var n := |rows| - 1;
      Add(GroupBy(rows[..n], keyOf), keyOf(rows[n]), rows[n])
  }

  // ---------------------------------------------------------------------
  // The reference definition: a group is the aggregate of its key's rows.

  /** The rows with key `k`, in table order. */
  function Members<K(==)>(rows: seq<Row>, keyOf: Row -> K, k: K): seq<Row> {
    if rows == [] then []
    else
      var n := |rows| - 1;
      Members(rows[..n], keyOf, k) + (if keyOf(rows[n]) == k then [rows[n]] else [])
  }

  /** What the aggregation of `members` under key `k` gives. */
  function Aggregate<K>(k: K, members: seq<Row>): Group<K>
    requires members != []
  {
    Group(k, Sum(members, Rain), |members|, Sum(members, Lat), Sum(members, Lon), members[0].stationName)
  }

  lemma {:induction false} MembersNonEmpty<K>(rows: seq<Row>, keyOf: Row -> K, k: K)
    ensures Members(rows, keyOf, k) != [] <==> exists j :: 0 <= j < |rows| && keyOf(rows[j]) == k
  {
    if rows != [] {
      var n := |rows| - 1;
      MembersNonEmpty(rows[..n], keyOf, k);
      if exists j :: 0 <= j < |rows| && keyOf(rows[j]) == k {
        var j :| 0 <= j < |rows| && keyOf(rows[j]) == k;
        if j < n { assert rows[..n][j] == rows[j]; }
      }
      if exists j :: 0 <= j < n && keyOf(rows[..n][j]) == k {
        var j :| 0 <= j < n && keyOf(rows[..n][j]) == k;
        assert rows[j] == rows[..n][j];
      }
    }
  }

  lemma AggregateSnoc<K>(k: K, members: seq<Row>, r: Row)
    requires members != []
    ensures Aggregate(k, members + [r]) == Merge(Aggregate(k, members), r)
  {
    SumAppend(members, [r], Rain);
    SumAppend(members, [r], Lat);
    SumAppend(members, [r], Lon);
  }

  lemma {:induction false} AddFind<K>(gs: seq<Group<K>>, k: K, r: Row, k': K)
    requires forall i :: 0 <= i < |gs| ==> gs[i].count > 0
    ensures Find(Add(gs, k, r), k') ==
      if k' != k then Find(gs, k')
      else match Find(gs, k)
        case None => Some(Start(k, r))
        case Some(g) => Some(Merge(g, r))
  {
    if gs != [] && gs[0].key != k {
      AddFind(gs[1..], k, r, k');
      assert Add(gs, k, r)[1..] == Add(gs[1..], k, r);
    }
  }

  lemma {:induction false} FindNone<K>(gs: seq<Group<K>>, k: K)
    requires Find(gs, k).None?
    ensures forall i :: 0 <= i < |gs| ==> gs[i].key != k
  {
    if gs != [] {
      FindNone(gs[1..], k);
      assert forall i :: 1 <= i < |gs| ==> gs[i] == gs[1..][i - 1];
    }
  }

  lemma {:induction false} FindDistinct<K>(gs: seq<Group<K>>, i: nat)
    requires Distinct(gs, KeyOf) && i < |gs|
    ensures Find(gs, gs[i].key) == Some(gs[i])
  {
    if i > 0 {
      assert gs[0].key != gs[i].key;
      assert Distinct(gs[1..], KeyOf) by {
        forall a, b | 0 <= a < b < |gs[1..]| ensures KeyOf(gs[1..][a]) != KeyOf(gs[1..][b]) {
          assert gs[1..][a] == gs[a + 1] && gs[1..][b] == gs[b + 1];
        }
      }
      FindDistinct(gs[1..], i - 1);
    }
  }

  lemma {:induction false} FindSome<K>(gs: seq<Group<K>>, k: K)
    requires Find(gs, k).Some?
    ensures exists i :: 0 <= i < |gs| && gs[i] == Find(gs, k).value && gs[i].key == k
  {
    if gs[0].key != k {
      FindSome(gs[1..], k);
      var i :| 0 <= i < |gs[1..]| && gs[1..][i] == Find(gs[1..], k).value && gs[1..][i].key == k;
      assert gs[i + 1] == gs[1..][i];
    }
  }

  lemma AddDistinct<K>(gs: seq<Group<K>>, k: K, r: Row)
    requires forall i :: 0 <= i < |gs| ==> gs[i].count > 0
    requires Distinct(gs, KeyOf)
    ensures Distinct(Add(gs, k, r), KeyOf)
  {
    var gs' := Add(gs, k, r);
    if |gs'| == |gs| + 1 {
      FindNone(gs, k);
    }
  }

  lemma {:induction false} AddTotal<K>(gs: seq<Group<K>>, k: K, r: Row)
    requires forall i :: 0 <= i < |gs| ==> gs[i].count > 0
    ensures Sum(Add(gs, k, r), TotalOf) == Sum(gs, TotalOf) + r.rainfallMm
    ensures Sum(Add(gs, k, r), CountOf) == Sum(gs, CountOf) + 1.0
  {
    var gs' := Add(gs, k, r);
    if gs == [] {
      assert gs'[1..] == [];
    } else if gs[0].key == k {
      assert gs'[1..] == gs[1..];
    } else {
      assert gs'[1..] == Add(gs[1..], k, r);
      AddTotal(gs[1..], k, r);
    }
  }

  /**
   * Group-by is correct against the reference: keys are distinct, and the
   * group found under any key is exactly the aggregate of that key's rows,
   * present precisely when some row has that key.
   */
  lemma {:induction false} GroupByFind<K>(rows: seq<Row>, keyOf: Row -> K)
    ensures Distinct(GroupBy(rows, keyOf), KeyOf)
    ensures forall k ::
              Find(GroupBy(rows, keyOf), k) ==
              if Members(rows, keyOf, k) == [] then None else Some(Aggregate(k, Members(rows, keyOf, k)))
  {
    if rows != [] {
      var n := |rows| - 1;
      var front := rows[..n];
      var r := rows[n];
      GroupByFind(front, keyOf);
      var gs := GroupBy(front, keyOf);
      AddDistinct(gs, keyOf(r), r);
      forall k
        ensures Find(GroupBy(rows, keyOf), k) ==
          if Members(rows, keyOf, k) == [] then None else Some(Aggregate(k, Members(rows, keyOf, k)))
      {
        AddFind(gs, keyOf(r), r, k);
        var before := Members(front, keyOf, k);
        if k != keyOf(r) {
          assert Members(rows, keyOf, k) == before + [];
          assert before + [] == before;
        } else if before == [] {
          assert Members(rows, keyOf, k) == [] + [r] == [r];
          SumSingle(r, Rain);
          SumSingle(r, Lat);
          SumSingle(r, Lon);
        } else {
          assert Members(rows, keyOf, k) == before + [r];
          AggregateSnoc(k, before, r);
        }
      }
    }
  }

  /**
   * The properties callers rely on: one group per distinct key, every group
   * the aggregate of exactly its key's rows, every row in some group, and
   * group totals and counts adding up to the table's rainfall and row count.
   */
  lemma {:induction false} GroupBySpec<K>(rows: seq<Row>, keyOf: Row -> K)
    ensures Distinct(GroupBy(rows, keyOf), KeyOf)
    ensures forall i :: 0 <= i < |GroupBy(rows, keyOf)| ==>
      var g := GroupBy(rows, keyOf)[i];
      Members(rows, keyOf, g.key) != [] && g == Aggregate(g.key, Members(rows, keyOf, g.key))
    ensures forall j :: 0 <= j < |rows| ==>
      exists i :: 0 <= i < |GroupBy(rows, keyOf)| && GroupBy(rows, keyOf)[i].key == keyOf(rows[j])
    ensures Sum(GroupBy(rows, keyOf), TotalOf) == Sum(rows, Rain)
    ensures Sum(GroupBy(rows, keyOf), CountOf) == |rows| as real
  {
    var gs := GroupBy(rows, keyOf);
    GroupByFind(rows, keyOf);
    forall i | 0 <= i < |gs|
      ensures Members(rows, keyOf, gs[i].key) != [] && gs[i] == Aggregate(gs[i].key, Members(rows, keyOf, gs[i].key))
    {
      FindDistinct(gs, i);
      assert Find(GroupBy(rows, keyOf), gs[i].key) == Some(gs[i]);
    }
    forall j | 0 <= j < |rows|
      ensures exists i :: 0 <= i < |gs| && gs[i].key == keyOf(rows[j])
    {
      GroupByCoversRow(rows, keyOf, j);
    }
    GroupBySums(rows, keyOf);
  }

  /** Row `j`'s key has a group. */
  lemma GroupByCoversRow<K>(rows: seq<Row>, keyOf: Row -> K, j: nat)
    requires j < |rows|
    ensures exists i :: 0 <= i < |GroupBy(rows, keyOf)| && GroupBy(rows, keyOf)[i].key == keyOf(rows[j])
  {
    var gs := GroupBy(rows, keyOf);
    var k := keyOf(rows[j]);
    GroupByFind(rows, keyOf);
    MembersNonEmpty(rows, keyOf, k);
    assert Members(rows, keyOf, k) != [];
    assert Find(gs, k).Some?;
    FindSome(gs, k);
  }

  lemma {:induction false} GroupBySums<K>(rows: seq<Row>, keyOf: Row -> K)
    ensures Sum(GroupBy(rows, keyOf), TotalOf) == Sum(rows, Rain)
    ensures Sum(GroupBy(rows, keyOf), CountOf) == |rows| as real
  {
    if rows != [] {
      var n := |rows| - 1;
      GroupBySums(rows[..n], keyOf);
      AddTotal(GroupBy(rows[..n], keyOf), keyOf(rows[n]), rows[n]);
      SumAppend(rows[..n], [rows[n]], Rain);
      assert rows[..n] + [rows[n]] == rows;
    }
  }
}
