/**
 * The DedupHost pass of HostSearch (host.go): one row per link, where a
 * kept "service" row gives way to a later "subdomain" row, and every row
 * with an empty link is kept.
 */
module ResultReducer {
  import opened PostProcessor
  import opened RowProcessor

  /** The link map of the pass, and the empty-link rows it appended while reading. */
  datatype Reduced = Reduced(kept: map<string, Row>, extra: seq<Row>)

  /** A later row takes the place of the kept one only when it is a subdomain and the kept one a service. */
  predicate Replaces(kept: Row, row: Row, typeIndex: int)
  {
    Cell(kept, typeIndex) == "service" && Cell(row, typeIndex) == "subdomain"
  }

  /** The state of the pass after reading `rows` in order. */
  function Reduce(rows: seq<Row>, linkIndex: int, typeIndex: int): (r: Reduced)
    ensures forall row :: row in r.extra ==> row in rows
  {
    if rows == [] then Reduced(map[], [])
    else
      assert forall row :: row in rows[..|rows| - 1] ==> row in rows;
      var r := Reduce(rows[..|rows| - 1], linkIndex, typeIndex);
      var row := rows[|rows| - 1];
      var link := Cell(row, linkIndex);
      if link in r.kept then
        if link == "" then Reduced(r.kept, r.extra + [row])
        else if Replaces(r.kept[link], row, typeIndex) then Reduced(r.kept[link := row], r.extra)
        else r
      else Reduced(r.kept[link := row], r.extra)
  }

  /** The rows that carry a given link, in order. */
  function WithLink(rows: seq<Row>, linkIndex: int, link: string): seq<Row>
  {
    if rows == [] then []
    else WithLink(rows[..|rows| - 1], linkIndex, link)
         + (if Cell(rows[|rows| - 1], linkIndex) == link then [rows[|rows| - 1]] else [])
  }

  /** Index of the first row of type `t`, or |g| when there is none. */
  function FirstOfType(g: seq<Row>, typeIndex: int, t: string): (i: nat)
    ensures i <= |g|
    ensures i < |g| ==> Cell(g[i], typeIndex) == t
    ensures forall j :: 0 <= j < i ==> Cell(g[j], typeIndex) != t
  {
    if g == [] then 0
    else if Cell(g[0], typeIndex) == t then 0
    else 1 + FirstOfType(g[1..], typeIndex, t)
  }

  /**
   * The row that should survive for a group of rows sharing one link: the
   * first, unless it is a service and a later subdomain exists, in which case
   * the first such subdomain.
   */
  function Winner(g: seq<Row>, typeIndex: int): Row
    requires g != []
  {
    var later := g[1..];
    var i := FirstOfType(later, typeIndex, "subdomain");
    if Cell(g[0], typeIndex) == "service" && i < |later| then later[i] else g[0]
  }

  lemma FirstOfTypeSnoc(g: seq<Row>, row: Row, typeIndex: int, t: string)
    ensures FirstOfType(g + [row], typeIndex, t) ==
      if FirstOfType(g, typeIndex, t) < |g| then FirstOfType(g, typeIndex, t)
      else if Cell(row, typeIndex) == t then |g| else |g| + 1
  {
    var i := FirstOfType(g + [row], typeIndex, t);
    var k := FirstOfType(g, typeIndex, t);
    if k < |g| {
      assert (g + [row])[k] == g[k];
    } else if Cell(row, typeIndex) == t {
      assert (g + [row])[|g|] == row;
    }
  }

  /** How the winner of a group changes when one more row joins it; this is the rule of the pass. */
  lemma WinnerSnoc(g: seq<Row>, row: Row, typeIndex: int)
    requires g != []
    ensures Winner(g + [row], typeIndex) ==
      if Replaces(Winner(g, typeIndex), row, typeIndex) then row else Winner(g, typeIndex)
  {
    var later := g[1..];
    assert (g + [row])[1..] == later + [row];
    FirstOfTypeSnoc(later, row, typeIndex, "subdomain");
    var i := FirstOfType(later, typeIndex, "subdomain");
    if i < |later| {
      assert (later + [row])[i] == later[i];
    } else {
      assert (later + [row])[|later|] == row;
    }
  }

  lemma WithLinkSnoc(rows: seq<Row>, row: Row, linkIndex: int, link: string)
    ensures WithLink(rows + [row], linkIndex, link) ==
      WithLink(rows, linkIndex, link) + (if Cell(row, linkIndex) == link then [row] else [])
  {
    assert (rows + [row])[..|rows|] == rows;
  }

  /** The pass after one more row, as a function of the pass before it. */
  lemma ReduceSnoc(rows: seq<Row>, row: Row, linkIndex: int, typeIndex: int)
    ensures Reduce(rows + [row], linkIndex, typeIndex) ==
      var r := Reduce(rows, linkIndex, typeIndex);
      var link := Cell(row, linkIndex);
      if link in r.kept then
        if link == "" then Reduced(r.kept, r.extra + [row])
        else if Replaces(r.kept[link], row, typeIndex) then Reduced(r.kept[link := row], r.extra)
        else r
      else Reduced(r.kept[link := row], r.extra)
  {
    assert (rows + [row])[..|rows|] == rows;
  }

  /** Every key of the link map is the link of the row stored under it. */
  lemma {:induction false} ReduceKeyIsLink(rows: seq<Row>, linkIndex: int, typeIndex: int)
    ensures var r := Reduce(rows, linkIndex, typeIndex);
      forall l :: l in r.kept ==> Cell(r.kept[l], linkIndex) == l
  {
    if rows != [] {
      var init := rows[..|rows| - 1];
      assert rows == init + [rows[|rows| - 1]];
      ReduceKeyIsLink(init, linkIndex, typeIndex);
      ReduceSnoc(init, rows[|rows| - 1], linkIndex, typeIndex);
    }
  }

  /** The link map has a key exactly for the links that occur. */
  lemma {:induction false} ReduceKeysOccur(rows: seq<Row>, linkIndex: int, typeIndex: int)
    ensures var r := Reduce(rows, linkIndex, typeIndex);
      forall l :: l in r.kept <==> WithLink(rows, linkIndex, l) != []
  {
    if rows != [] {
      var init := rows[..|rows| - 1];
      var row := rows[|rows| - 1];
      assert rows == init + [row];
      ReduceKeysOccur(init, linkIndex, typeIndex);
      ReduceSnoc(init, row, linkIndex, typeIndex);
      forall l ensures WithLink(rows, linkIndex, l) ==
        WithLink(init, linkIndex, l) + (if Cell(row, linkIndex) == l then [row] else []) {
        WithLinkSnoc(init, row, linkIndex, l);
      }
    }
  }

  /** DedupHost keeps, for a non-empty link, the winner of the rows carrying it. */
  lemma {:induction false} ReduceKeepsWinner(rows: seq<Row>, linkIndex: int, typeIndex: int, l: string)
    requires l != ""
    ensures var r := Reduce(rows, linkIndex, typeIndex);
      l in r.kept ==> WithLink(rows, linkIndex, l) != [] && r.kept[l] == Winner(WithLink(rows, linkIndex, l), typeIndex)
  {
    if rows != [] {
      var init := rows[..|rows| - 1];
      var row := rows[|rows| - 1];
      assert rows == init + [row];
      ReduceKeepsWinner(init, linkIndex, typeIndex, l);
      ReduceKeysOccur(init, linkIndex, typeIndex);
      ReduceSnoc(init, row, linkIndex, typeIndex);
      WithLinkSnoc(init, row, linkIndex, l);
      var g := WithLink(init, linkIndex, l);
      var p := Reduce(init, linkIndex, typeIndex);
      if Cell(row, linkIndex) == l {
        assert WithLink(rows, linkIndex, l) == g + [row];
        if g != [] {
          assert l in p.kept;
          WinnerSnoc(g, row, typeIndex);
        } else {
          assert l !in p.kept;
          assert Winner(g + [row], typeIndex) == row;
        }
      } else {
        assert WithLink(rows, linkIndex, l) == g;
      }
    }
  }

  /** DedupHost keeps all rows with an empty link: the first in the map, the others appended. */
  lemma {:induction false} ReduceKeepsEmpty(rows: seq<Row>, linkIndex: int, typeIndex: int)
    ensures var r := Reduce(rows, linkIndex, typeIndex);
      && ("" in r.kept ==> [r.kept[""]] + r.extra == WithLink(rows, linkIndex, ""))
      && ("" !in r.kept ==> r.extra == [] && WithLink(rows, linkIndex, "") == [])
  {
    if rows != [] {
      var init := rows[..|rows| - 1];
      var row := rows[|rows| - 1];
      assert rows == init + [row];
      ReduceKeepsEmpty(init, linkIndex, typeIndex);
      ReduceSnoc(init, row, linkIndex, typeIndex);
      WithLinkSnoc(init, row, linkIndex, "");
    }
  }

  /** The pass never yields more rows than it read. */
  lemma {:induction false} ReduceShrinks(rows: seq<Row>, linkIndex: int, typeIndex: int)
    ensures var r := Reduce(rows, linkIndex, typeIndex);
      |r.kept| + |r.extra| <= |rows|
  {
    if rows != [] {
      var init := rows[..|rows| - 1];
      var row := rows[|rows| - 1];
      assert rows == init + [row];
      ReduceShrinks(init, linkIndex, typeIndex);
      ReduceSnoc(init, row, linkIndex, typeIndex);
      var p := Reduce(init, linkIndex, typeIndex);
      var link := Cell(row, linkIndex);
      if link !in p.kept {
        assert |p.kept[link := row]| == |p.kept| + 1;
      } else {
        assert |p.kept[link := row]| == |p.kept|;
      }
    }
  }

  /** The output of the pass: the appended empty-link rows, then one row per key of the map. */
  ghost predicate DedupOutput(r: Reduced, result: seq<Row>, linkIndex: int)
  {
    && |result| == |r.extra| + |r.kept|
    && result[..|r.extra|] == r.extra
    && (forall i :: |r.extra| <= i < |result| ==>
          Cell(result[i], linkIndex) in r.kept && result[i] == r.kept[Cell(result[i], linkIndex)])
    && (forall i, j :: |r.extra| <= i < j < |result| ==> Cell(result[i], linkIndex) != Cell(result[j], linkIndex))
    && (forall l :: l in r.kept ==> r.kept[l] in result[|r.extra|..])
  }

  /**
   * The DedupHost pass itself: a loop over the rows that fills the link map
   * and appends empty-link duplicates, then the map's rows in an order the
   * model leaves open, as Go's map iteration does.
   */
  method DedupHost(res: seq<Row>, linkIndex: int, typeIndex: int) returns (result: seq<Row>)
    requires forall row :: row in res ==> 0 <= linkIndex < |row| && 0 <= typeIndex < |row|
    ensures DedupOutput(Reduce(res, linkIndex, typeIndex), result, linkIndex)
  {
    result := [];
    var isSubDomainMap: map<string, Row> := map[];
    var n := 0;
    while n < |res|
      invariant 0 <= n <= |res|
      invariant Reduce(res[..n], linkIndex, typeIndex) == Reduced(isSubDomainMap, result)
    {
      assert res[..n + 1][..n] == res[..n];
      var row := res[n];
      assert row in res;
      n := n + 1;
      if row[linkIndex] in isSubDomainMap {
        var exist := isSubDomainMap[row[linkIndex]];
        if row[linkIndex] == "" {
          result := result + [row];
          continue;
        }
        if !(Cell(exist, typeIndex) == "service" && row[typeIndex] == "subdomain") {
          continue;
        }
      }
      isSubDomainMap := isSubDomainMap[row[linkIndex] := row];
    }
    assert res[..n] == res;
    ReduceKeyIsLink(res, linkIndex, typeIndex);
    result := AppendMapRows(result, isSubDomainMap, linkIndex);
  }

  /** The loop over the link map: its rows are appended in an unspecified order. */
  method AppendMapRows(extra: seq<Row>, isSubDomainMap: map<string, Row>, linkIndex: int) returns (result: seq<Row>)
    requires forall l :: l in isSubDomainMap ==> Cell(isSubDomainMap[l], linkIndex) == l
    ensures DedupOutput(Reduced(isSubDomainMap, extra), result, linkIndex)
  {
    result := extra;
    var keys := isSubDomainMap.Keys;
    while keys != {}
      invariant keys <= isSubDomainMap.Keys
      invariant |result| == |extra| + |isSubDomainMap| - |keys|
      invariant result[..|extra|] == extra
      invariant forall i :: |extra| <= i < |result| ==>
        Cell(result[i], linkIndex) in isSubDomainMap - keys && result[i] == isSubDomainMap[Cell(result[i], linkIndex)]
      invariant forall i, j :: |extra| <= i < j < |result| ==> Cell(result[i], linkIndex) != Cell(result[j], linkIndex)
      invariant forall l :: l in isSubDomainMap && l !in keys ==> isSubDomainMap[l] in result[|extra|..]
      decreases |keys|
    {
      var k :| k in keys;
      var v := isSubDomainMap[k];
      assert Cell(v, linkIndex) == k;
      var added := result[|extra|..];
      result := result + [v];
      assert result[|extra|..] == added + [v];
      keys := keys - {k};
    }
  }

  /** Every row of the pass, appended or in the map, is in the output. */
  lemma OutputHasAll(r: Reduced, result: seq<Row>, linkIndex: int)
    requires DedupOutput(r, result, linkIndex)
    ensures forall row :: row in r.extra ==> row in result
    ensures forall l :: l in r.kept ==> r.kept[l] in result
  {
    assert result == r.extra + result[|r.extra|..];
  }

  /** DedupHost: every row with an empty link survives, however many there are. */
  lemma EmptyLinksKept(res: seq<Row>, linkIndex: int, typeIndex: int, result: seq<Row>)
    requires DedupOutput(Reduce(res, linkIndex, typeIndex), result, linkIndex)
    ensures forall row :: row in WithLink(res, linkIndex, "") ==> row in result
  {
    var r := Reduce(res, linkIndex, typeIndex);
    var g := WithLink(res, linkIndex, "");
    ReduceKeepsEmpty(res, linkIndex, typeIndex);
    OutputHasAll(r, result, linkIndex);
    if g != [] {
      assert "" in r.kept && g == [r.kept[""]] + r.extra;
    }
  }

  /** The pass only keeps rows it read. */
  lemma {:induction false} ReduceFromRows(rows: seq<Row>, linkIndex: int, typeIndex: int)
    ensures var r := Reduce(rows, linkIndex, typeIndex);
      && (forall row :: row in r.extra ==> row in rows)
      && (forall l :: l in r.kept ==> r.kept[l] in rows)
  {
    if rows != [] {
      var init := rows[..|rows| - 1];
      var row := rows[|rows| - 1];
      assert rows == init + [row];
      ReduceFromRows(init, linkIndex, typeIndex);
      ReduceSnoc(init, row, linkIndex, typeIndex);
    }
  }

  /** DedupHost: no row is invented, and there are no more rows than before. */
  lemma DedupRowsFromInput(res: seq<Row>, linkIndex: int, typeIndex: int, result: seq<Row>)
    requires DedupOutput(Reduce(res, linkIndex, typeIndex), result, linkIndex)
    ensures |result| <= |res|
    ensures forall row :: row in result ==> row in res
  {
    var r := Reduce(res, linkIndex, typeIndex);
    ReduceShrinks(res, linkIndex, typeIndex);
    ReduceFromRows(res, linkIndex, typeIndex);
    forall row | row in result ensures row in res {
      var i :| 0 <= i < |result| && result[i] == row;
      if i < |r.extra| {
        assert r.extra[i] == row;
      }
    }
  }

  /** The rows of a link group all carry that link. */
  lemma {:induction false} WithLinkCells(rows: seq<Row>, linkIndex: int, link: string)
    ensures forall row :: row in WithLink(rows, linkIndex, link) ==> Cell(row, linkIndex) == link
  {
    if rows != [] {
      WithLinkCells(rows[..|rows| - 1], linkIndex, link);
    }
  }

  /** A row belongs to the group of its own link. */
  lemma {:induction false} WithLinkHas(rows: seq<Row>, linkIndex: int, row: Row)
    requires row in rows
    ensures row in WithLink(rows, linkIndex, Cell(row, linkIndex))
  {
    var init := rows[..|rows| - 1];
    WithLinkSnoc(init, rows[|rows| - 1], linkIndex, Cell(row, linkIndex));
    assert rows == init + [rows[|rows| - 1]];
    if row != rows[|rows| - 1] {
      WithLinkHas(init, linkIndex, row);
    }
  }

  /** The rows the pass appends while reading all have an empty link. */
  lemma {:induction false} ReduceExtraEmpty(rows: seq<Row>, linkIndex: int, typeIndex: int)
    ensures forall row :: row in Reduce(rows, linkIndex, typeIndex).extra ==> Cell(row, linkIndex) == ""
  {
    if rows != [] {
      ReduceExtraEmpty(rows[..|rows| - 1], linkIndex, typeIndex);
    }
  }

  /**
   * DedupHost: two output rows share a link only when it is empty, the row
   * kept for a non-empty link is the winner of the rows with that link, and
   * every non-empty link of the input has a row in the output.
   */
  lemma DedupOneRowPerLink(res: seq<Row>, linkIndex: int, typeIndex: int, result: seq<Row>)
    requires DedupOutput(Reduce(res, linkIndex, typeIndex), result, linkIndex)
    ensures forall i, j :: 0 <= i < j < |result| && Cell(result[i], linkIndex) == Cell(result[j], linkIndex)
              ==> Cell(result[i], linkIndex) == ""
    ensures forall i :: 0 <= i < |result| && Cell(result[i], linkIndex) != "" ==>
              && WithLink(res, linkIndex, Cell(result[i], linkIndex)) != []
              && result[i] == Winner(WithLink(res, linkIndex, Cell(result[i], linkIndex)), typeIndex)
    ensures forall row :: row in res && Cell(row, linkIndex) != "" ==>
              exists i :: 0 <= i < |result| && Cell(result[i], linkIndex) == Cell(row, linkIndex)
  {
    var r := Reduce(res, linkIndex, typeIndex);
    var e := |r.extra|;
    ReduceKeysOccur(res, linkIndex, typeIndex);
    ReduceKeyIsLink(res, linkIndex, typeIndex);
    forall row | row in res && Cell(row, linkIndex) != ""
      ensures exists i :: 0 <= i < |result| && Cell(result[i], linkIndex) == Cell(row, linkIndex)
    {
      var l := Cell(row, linkIndex);
      WithLinkHas(res, linkIndex, row);
      assert l in r.kept;
      assert r.kept[l] in result[e..];
      var i :| e <= i < |result| && result[i] == r.kept[l];
    }
    ReduceExtraEmpty(res, linkIndex, typeIndex);
    forall i | 0 <= i < e ensures Cell(result[i], linkIndex) == "" {
      assert result[i] == result[..e][i];
      assert result[i] in r.extra;
    }
    forall i | 0 <= i < |result| && Cell(result[i], linkIndex) != ""
      ensures && WithLink(res, linkIndex, Cell(result[i], linkIndex)) != []
              && result[i] == Winner(WithLink(res, linkIndex, Cell(result[i], linkIndex)), typeIndex)
    {
      var l := Cell(result[i], linkIndex);
      assert e <= i;
      assert l in r.kept && result[i] == r.kept[l];
      ReduceKeepsWinner(res, linkIndex, typeIndex, l);
    }
  }
}
