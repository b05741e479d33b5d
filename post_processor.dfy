/**
 * Post-processing of the rows of a host search (host.go): turning the host
 * cell into a URL and dropping the columns the caller did not ask for.
 */
module PostProcessor {

  type Row = seq<string>

  /** `sub` occurs in `s` starting at index `i`. */
  predicate ContainsAt(s: string, sub: string, i: int)
  {
    0 <= i && i + |sub| <= |s| && s[i..i + |sub|] == sub
  }

  /** strings.Contains */
  predicate Contains(s: string, sub: string)
  {
    exists i | 0 <= i <= |s| :: ContainsAt(s, sub, i)
  }

  /** The protocols that fixHostToUrl uses as a URL scheme. */
  predicate KnownScheme(protocol: string)
  {
    protocol in ["socks5", "redis", "http", "https", "mongodb", "mysql"]
  }

  /** `protocolIndex` is -1 or a column of `row`. */
  predicate ProtocolColumn(row: Row, protocolIndex: int)
  {
    protocolIndex == -1 || 0 <= protocolIndex < |row|
  }

  /** The new host cell: untouched when it has a scheme, else the prefix, the row's protocol, or http. */
  function UrlOf(host: string, row: Row, urlPrefix: string, protocolIndex: int): (u: string)
    requires ProtocolColumn(row, protocolIndex)
    ensures |host| <= |u| && u[|u| - |host|..] == host
  {
    if Contains(host, "://") then host
    else if urlPrefix != "" then urlPrefix + host
    else if protocolIndex != -1 && KnownScheme(row[protocolIndex]) then row[protocolIndex] + "://" + host
    else "http://" + host
  }

  /** One row of fixHostToUrl: only the cell at `hostIndex` may change. */
  function FixedRow(row: Row, hostIndex: int, urlPrefix: string, protocolIndex: int): (r: Row)
    requires ProtocolColumn(row, protocolIndex)
    ensures |r| == |row|
    ensures forall j :: 0 <= j < |row| && j != hostIndex ==> r[j] == row[j]
  {
    seq(|row|, j requires 0 <= j < |row| =>
      if j == hostIndex then UrlOf(row[j], row, urlPrefix, protocolIndex) else row[j])
  }

  /** fixHostToUrl, as the nested append loops of the source. */
  method FixHostToUrl(res: seq<Row>, hostIndex: int, urlPrefix: string, protocolIndex: int)
    returns (newRes: seq<Row>)
    requires forall row :: row in res ==> ProtocolColumn(row, protocolIndex)
    ensures |newRes| == |res|
    ensures forall i :: 0 <= i < |res| ==> newRes[i] == FixedRow(res[i], hostIndex, urlPrefix, protocolIndex)
  {
    newRes := [];
    var i := 0;
    while i < |res|
      invariant 0 <= i <= |res|
      invariant |newRes| == i
      invariant forall k :: 0 <= k < i ==> newRes[k] == FixedRow(res[k], hostIndex, urlPrefix, protocolIndex)
    {
      var row := res[i];
      assert row in res;
      var newRow: Row := [];
      var j := 0;
      while j < |row|
        invariant 0 <= j <= |row|
        invariant newRow == FixedRow(row, hostIndex, urlPrefix, protocolIndex)[..j]
      {
        var r := row[j];
        if j == hostIndex {
          if !Contains(r, "://") {
            if urlPrefix != "" {
              r := urlPrefix + r;
            } else if protocolIndex != -1 && KnownScheme(row[protocolIndex]) {
              r := row[protocolIndex] + "://" + r;
            } else {
              r := "http://" + r;
            }
          }
        }
        newRow := newRow + [r];
        j := j + 1;
      }
      newRes := newRes + [newRow];
      i := i + 1;
    }
  }

  /** A string that starts with something containing `sub` contains `sub`. */
  lemma ContainsExtend(a: string, b: string, sub: string)
    requires Contains(a, sub)
    ensures Contains(a + b, sub)
  {
    var i :| 0 <= i <= |a| && ContainsAt(a, sub, i);
    assert (a + b)[i..i + |sub|] == a[i..i + |sub|];
    assert ContainsAt(a + b, sub, i);
  }

  /** A scheme followed by "://" gives a string containing "://". */
  lemma SchemeContains(scheme: string, host: string)
    ensures Contains(scheme + "://" + host, "://")
  {
    var s := scheme + "://" + host;
    assert s[|scheme|..|scheme| + 3] == "://";
    assert ContainsAt(s, "://", |scheme|);
  }

  /**
   * After fixHostToUrl the host cell holds "://", unless a non-empty prefix
   * without "://" was prepended.
   */
  lemma UrlOfHasScheme(host: string, row: Row, urlPrefix: string, protocolIndex: int)
    requires ProtocolColumn(row, protocolIndex)
    requires urlPrefix == "" || Contains(urlPrefix, "://")
    ensures Contains(UrlOf(host, row, urlPrefix, protocolIndex), "://")
  {
    if Contains(host, "://") {
    } else if urlPrefix != "" {
      ContainsExtend(urlPrefix, host, "://");
    } else if protocolIndex != -1 && KnownScheme(row[protocolIndex]) {
      SchemeContains(row[protocolIndex], host);
    } else {
      SchemeContains("http", host);
      assert "http" + "://" + host == "http://" + host;
    }
  }

  /**
   * The rewritten host ends with the original host, and it is the host
   * itself exactly when the host already had a scheme.
   */
  lemma UrlOfKeepsHost(host: string, row: Row, urlPrefix: string, protocolIndex: int)
    requires ProtocolColumn(row, protocolIndex)
    ensures var u := UrlOf(host, row, urlPrefix, protocolIndex);
      && |host| <= |u| && u[|u| - |host|..] == host
      && (u == host <==> Contains(host, "://"))
  {
    var u := UrlOf(host, row, urlPrefix, protocolIndex);
    if !Contains(host, "://") {
      var prefix := if urlPrefix != "" then urlPrefix
                    else if protocolIndex != -1 && KnownScheme(row[protocolIndex]) then row[protocolIndex] + "://"
                    else "http://";
      assert u == prefix + host;
      assert |prefix| > 0;
    }
  }

  /** FixUrl: the host cell of every fixed row contains "://". */
  lemma FixedHostIsUrl(row: Row, hostIndex: int, urlPrefix: string, protocolIndex: int)
    requires ProtocolColumn(row, protocolIndex)
    requires 0 <= hostIndex < |row|
    requires urlPrefix == "" || Contains(urlPrefix, "://")
    ensures Contains(FixedRow(row, hostIndex, urlPrefix, protocolIndex)[hostIndex], "://")
  {
    UrlOfHasScheme(row[hostIndex], row, urlPrefix, protocolIndex);
  }

  /** fixHostToUrl is idempotent when the prefix is empty or already has a scheme. */
  lemma FixedRowIdempotent(row: Row, hostIndex: int, urlPrefix: string, protocolIndex: int)
    requires ProtocolColumn(row, protocolIndex)
    requires urlPrefix == "" || Contains(urlPrefix, "://")
    ensures var once := FixedRow(row, hostIndex, urlPrefix, protocolIndex);
            FixedRow(once, hostIndex, urlPrefix, protocolIndex) == once
  {
    var once := FixedRow(row, hostIndex, urlPrefix, protocolIndex);
    if 0 <= hostIndex < |row| {
      FixedHostIsUrl(row, hostIndex, urlPrefix, protocolIndex);
    }
    var twice := FixedRow(once, hostIndex, urlPrefix, protocolIndex);
    assert forall j :: 0 <= j < |once| ==> twice[j] == once[j];
  }

  /** One row of postProcess: fixHostToUrl when FixUrl is set, then the first `rawFieldSize` cells. */
  function ProcessedRow(row: Row, fieldCount: nat, hostIndex: int, protocolIndex: int,
                        rawFieldSize: nat, fixUrl: bool, urlPrefix: string): (r: Row)
    requires ProtocolColumn(row, protocolIndex)
    requires rawFieldSize != fieldCount ==> rawFieldSize <= |row|
    ensures |r| == if rawFieldSize != fieldCount then rawFieldSize else |row|
  {
    var fixed := if fixUrl then FixedRow(row, hostIndex, urlPrefix, protocolIndex) else row;
    if rawFieldSize != fieldCount then fixed[..rawFieldSize] else fixed
  }

  /** postProcess over all rows. `fields` is the effective field list. */
  method PostProcess(res: seq<Row>, fields: seq<string>, hostIndex: int, protocolIndex: int,
                     rawFieldSize: nat, fixUrl: bool, urlPrefix: string)
    returns (out: seq<Row>)
    requires forall row :: row in res ==> ProtocolColumn(row, protocolIndex)
    requires rawFieldSize != |fields| ==> forall row :: row in res ==> rawFieldSize <= |row|
    ensures |out| == |res|
    ensures forall i :: 0 <= i < |res| ==>
      out[i] == ProcessedRow(res[i], |fields|, hostIndex, protocolIndex, rawFieldSize, fixUrl, urlPrefix)
  {
    var rows := res;
    if fixUrl {
      rows := FixHostToUrl(res, hostIndex, urlPrefix, protocolIndex);
    }
    if rawFieldSize != |fields| {
      out := [];
      var i := 0;
      while i < |rows|
        invariant 0 <= i <= |rows| && |rows| == |res|
        invariant |out| == i
        invariant forall k :: 0 <= k < i ==>
          out[k] == ProcessedRow(res[k], |fields|, hostIndex, protocolIndex, rawFieldSize, fixUrl, urlPrefix)
      {
        assert res[i] in res;
        out := out + [rows[i][..rawFieldSize]];
        i := i + 1;
      }
    } else {
      out := rows;
    }
  }

  /** The width of a processed row: the requested columns when trimming, else the row's own. */
  lemma ProcessedRowWidth(row: Row, fieldCount: nat, hostIndex: int, protocolIndex: int,
                          rawFieldSize: nat, fixUrl: bool, urlPrefix: string)
    requires ProtocolColumn(row, protocolIndex)
    requires rawFieldSize != fieldCount ==> rawFieldSize <= |row|
    ensures var r := ProcessedRow(row, fieldCount, hostIndex, protocolIndex, rawFieldSize, fixUrl, urlPrefix);
            && (rawFieldSize != fieldCount ==> |r| == rawFieldSize)
            && (rawFieldSize == fieldCount ==> |r| == |row|)
            && (forall j :: 0 <= j < |r| && (j != hostIndex || !fixUrl) ==> r[j] == row[j])
  {
  }
}
