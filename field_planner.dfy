/**
 * Field planning for a host search: which columns are requested from the
 * server, and where the columns needed by each option sit (host.go).
 */
module FieldPlanner {
  import opened Wrappers

  const NoHostWithFixUrl := "host field must included when fixUrl option set"

  /** The options of one search call; an absent option list is the zero value. */
  datatype SearchOptions = SearchOptions(
    fixUrl: bool,
    urlPrefix: string,
    full: bool,
    uniqByIP: bool,
    isActive: int,
    deWildcard: int,
    filter: string,
    dedupHost: bool)

  const NoOptions := SearchOptions(false, "", false, false, 0, 0, "", false)

  /** Index of the first occurrence of `x` in `s`, or |s| when absent. */
  function FirstIndex(s: seq<string>, x: string): (i: nat)
    ensures i <= |s|
    ensures i < |s| <==> x in s
    ensures i < |s| ==> s[i] == x
    ensures forall j :: 0 <= j < i ==> s[j] != x
  {
    if s == [] then 0
    else if s[0] == x then 0
    else 1 + FirstIndex(s[1..], x)
  }

  /** Index of the last occurrence of `x` in `s`, or -1 when absent. */
  function LastIndex(s: seq<string>, x: string): (i: int)
    ensures -1 <= i < |s|
    ensures i >= 0 <==> x in s
    ensures i >= 0 ==> s[i] == x
    ensures forall j :: i < j < |s| ==> s[j] != x
  {
    if s == [] then -1
    else if s[|s| - 1] == x then |s| - 1
    else LastIndex(s[..|s| - 1], x)
  }

  /** The result of getParamIndexThenAdd: an index and the possibly extended list. */
  datatype Added = Added(index: nat, fields: seq<string>)

  /** getParamIndexThenAdd: find `field`, or append it. */
  function IndexThenAdd(fields: seq<string>, field: string): (r: Added)
    ensures r.index < |r.fields| && r.fields[r.index] == field
    ensures |fields| <= |r.fields| && r.fields[..|fields|] == fields
    ensures field in fields ==> r.fields == fields && forall j :: 0 <= j < r.index ==> fields[j] != field
    ensures field !in fields ==> r.fields == fields + [field] && r.index == |fields|
  {
    var i := FirstIndex(fields, field);
    if i < |fields| then Added(i, fields) else Added(|fields|, fields + [field])
  }

  /** The outcome of fixUrlCheck. */
  datatype UrlCheck = UrlCheck(hostIndex: int, protocolIndex: int, fields: seq<string>, rawFieldSize: nat)

  /** fixUrlCheck: the default field list and the host/protocol columns for FixUrl. */
  function FixUrlCheck(fields: seq<string>, fixUrl: bool): (r: Result<UrlCheck, string>)
    ensures fields == [] && !fixUrl ==> r == Ok(UrlCheck(-1, -1, ["host", "ip", "port"], 3))
    ensures fields == [] && fixUrl ==> r == Ok(UrlCheck(0, 3, ["host", "ip", "port", "protocol"], 4))
    ensures fields != [] && !fixUrl ==> r == Ok(UrlCheck(-1, -1, fields, |fields|))
    ensures fields != [] && fixUrl && "host" !in fields ==> r == Err(NoHostWithFixUrl)
    ensures fields != [] && fixUrl && "host" in fields ==>
      && r.Ok?
      && r.value.rawFieldSize == |fields|
      && 0 <= r.value.hostIndex < |fields| && fields[r.value.hostIndex] == "host"
      && (forall j :: r.value.hostIndex < j < |fields| ==> fields[j] != "host")
      && ("protocol" in fields ==>
            && r.value.fields == fields
            && 0 <= r.value.protocolIndex < |fields| && fields[r.value.protocolIndex] == "protocol"
            && (forall j :: r.value.protocolIndex < j < |fields| ==> fields[j] != "protocol"))
      && ("protocol" !in fields ==>
            r.value.fields == fields + ["protocol"] && r.value.protocolIndex == |fields|)
    ensures r.Ok? ==> GoodUrlCheck(r.value, fixUrl)
    ensures r.Err? ==> r.error == NoHostWithFixUrl
  {
    if fields == [] then
      if fixUrl then Ok(UrlCheck(0, 3, ["host", "ip", "port", "protocol"], 4))
      else Ok(UrlCheck(-1, -1, ["host", "ip", "port"], 3))
    else if !fixUrl then Ok(UrlCheck(-1, -1, fields, |fields|))
    else
      var hostIndex := LastIndex(fields, "host");
      if hostIndex == -1 then Err(NoHostWithFixUrl)
      else
        var protocolIndex := LastIndex(fields, "protocol");
        if protocolIndex == -1 then Ok(UrlCheck(hostIndex, |fields|, fields + ["protocol"], |fields|))
        else Ok(UrlCheck(hostIndex, protocolIndex, fields, |fields|))
  }

  /** Column `i` of `fields` exists and holds `name`. */
  predicate At(fields: seq<string>, i: int, name: string)
  {
    0 <= i < |fields| && fields[i] == name
  }

  /** `a` is a prefix of `b`: every column of `a` keeps its place in `b`. */
  predicate Prefix(a: seq<string>, b: seq<string>)
  {
    |a| <= |b| && forall i :: 0 <= i < |a| ==> b[i] == a[i]
  }

  lemma PrefixTrans(a: seq<string>, b: seq<string>, c: seq<string>)
    requires Prefix(a, b) && Prefix(b, c)
    ensures Prefix(a, c)
  {
  }

  /** Extending a field list keeps every column where it was. */
  lemma PrefixKeeps(a: seq<string>, b: seq<string>)
    requires Prefix(a, b)
    ensures forall i, name :: At(a, i, name) ==> At(b, i, name)
  {

  }

  /** A column that an option needs stays where it is when the list is extended. */
  lemma AtKeepsIf(on: bool, a: seq<string>, b: seq<string>, i: int, name: string)
    requires Prefix(a, b) && (on ==> At(a, i, name))
    ensures on ==> At(b, i, name)
  {
  }

  /**
   * `b` is `a` followed by new columns only: each new column is one of
   * `names`, is not a column of `a`, and is not added twice.
   */
  predicate Appends(a: seq<string>, b: seq<string>, names: set<string>)
  {
    && Prefix(a, b)
    && (forall i :: |a| <= i < |b| ==> b[i] in names && b[i] !in a)
    && (forall i, j :: |a| <= i < j < |b| ==> b[i] != b[j])
  }

  lemma AppendsTrans(a: seq<string>, b: seq<string>, c: seq<string>, n1: set<string>, n2: set<string>)
    requires Appends(a, b, n1) && Appends(b, c, n2)
    ensures Appends(a, c, n1 + n2)
  {
    assert forall x :: x in a ==> x in b by {
      forall x | x in a ensures x in b {
        var k :| 0 <= k < |a| && a[k] == x;
        assert b[k] == x;
      }
    }
    forall i, j | |a| <= i < j < |c| ensures c[i] != c[j] {
      if i < |b| <= j {
        assert c[i] == b[i] && b[i] in b;
      }
    }
  }

  lemma AppendsWiden(a: seq<string>, b: seq<string>, n: set<string>, m: set<string>)
    requires Appends(a, b, n) && n <= m
    ensures Appends(a, b, m)
  {
  }

  /** A column index and the field list after an optional getParamIndexThenAdd. */
  datatype Slot = Slot(index: int, fields: seq<string>)

  /** getParamIndexThenAdd when `on` holds; otherwise the index stays -1. */
  function AddIf(on: bool, fields: seq<string>, field: string): (r: Slot)
    ensures Prefix(fields, r.fields)
    ensures on ==> 0 <= r.index < |r.fields| && r.fields[r.index] == field
    ensures on && field in fields ==> r.fields == fields && forall j :: 0 <= j < r.index ==> fields[j] != field
    ensures on && field !in fields ==> r == Slot(|fields|, fields + [field])
    ensures !on ==> r == Slot(-1, fields)
    ensures Appends(fields, r.fields, if on then {field} else {})
  {
    if on then
      var a := IndexThenAdd(fields, field);
      Slot(a.index, a.fields)
    else Slot(-1, fields)
  }

  /** The field list after the filter's variables were added, with each variable's column. */
  datatype VarSlots = VarSlots(fields: seq<string>, indexes: map<string, nat>)

  /** The loop over the filter's variables: each one is looked up or appended, in order. */
  function {:induction false} AddVars(fields: seq<string>, vars: seq<string>): (r: VarSlots)
    ensures Prefix(fields, r.fields)
    ensures VarsIndexed(r, vars)
    ensures Appends(fields, r.fields, set v | v in vars)
    decreases |vars|
  {
    if vars == [] then VarSlots(fields, map[])
    else
      var a := IndexThenAdd(fields, vars[0]);
      var rest := AddVars(a.fields, vars[1..]);
      AddVarsStep(fields, vars, a, rest);
      if vars[0] in rest.indexes then rest
      else VarSlots(rest.fields, rest.indexes[vars[0] := a.index])
  }

  /** The first variable's lookup, followed by the rest of the loop, indexes every variable. */
  lemma AddVarsStep(fields: seq<string>, vars: seq<string>, a: Added, rest: VarSlots)
    requires vars != [] && a == IndexThenAdd(fields, vars[0])
    requires Prefix(a.fields, rest.fields) && VarsIndexed(rest, vars[1..])
    requires Appends(a.fields, rest.fields, set v | v in vars[1..])
    ensures var r := if vars[0] in rest.indexes then rest else VarSlots(rest.fields, rest.indexes[vars[0] := a.index]);
      Prefix(fields, r.fields) && VarsIndexed(r, vars) && Appends(fields, r.fields, set v | v in vars)
  {
    PrefixTrans(fields, a.fields, rest.fields);
    PrefixKeeps(a.fields, rest.fields);
    assert forall v :: v in vars <==> v == vars[0] || v in vars[1..];
    VarsAppend(fields, vars, a, rest.fields);
  }

  lemma VarsAppend(fields: seq<string>, vars: seq<string>, a: Added, restFields: seq<string>)
    requires vars != [] && a == IndexThenAdd(fields, vars[0])
    requires Appends(a.fields, restFields, set v | v in vars[1..])
    ensures Appends(fields, restFields, set v | v in vars)
  {
    assert Appends(fields, a.fields, {vars[0]});
    AppendsTrans(fields, a.fields, restFields, {vars[0]}, set v | v in vars[1..]);
    assert {vars[0]} + (set v | v in vars[1..]) <= set v | v in vars;
    AppendsWiden(fields, restFields, {vars[0]} + (set v | v in vars[1..]), set v | v in vars);
  }

  /** What the rest of the planning needs from a successful fixUrlCheck. */
  predicate GoodUrlCheck(u: UrlCheck, fixUrl: bool)
  {
    && u.rawFieldSize <= |u.fields|
    && (fixUrl ==> At(u.fields, u.hostIndex, "host") && At(u.fields, u.protocolIndex, "protocol"))
    && (!fixUrl ==> u.hostIndex == -1 && u.protocolIndex == -1)
  }

  /** Every filter variable has a column holding its name. */
  predicate VarsIndexed(fv: VarSlots, vars: seq<string>)
  {
    && fv.indexes.Keys == (set v | v in vars)
    && forall v :: v in fv.indexes ==> At(fv.fields, fv.indexes[v], v)
  }

  /** All the column bookkeeping of one HostSearch call. */
  datatype Plan = Plan(
    fields: seq<string>,
    rawFieldSize: nat,
    hostIndex: int,
    protocolIndex: int,
    ipIndex: int,
    linkIndex: int,
    codeIndex: int,
    portIndex: int,
    domainIndex: int,
    titleIndex: int,
    fidIndex: int,
    typeIndex: int,
    filterIndex: map<string, nat>)

  /** The facts about a plan that the rest of the search relies on. */
  predicate ValidPlan(p: Plan, o: SearchOptions, vars: seq<string>)
  {
    && p.rawFieldSize <= |p.fields|
    && (o.fixUrl ==> At(p.fields, p.hostIndex, "host") && At(p.fields, p.protocolIndex, "protocol"))
    && (!o.fixUrl ==> p.hostIndex == -1 && p.protocolIndex == -1)
    && (o.uniqByIP || o.deWildcard > 0 ==> At(p.fields, p.ipIndex, "ip"))
    && (o.isActive > 0 || o.dedupHost ==> At(p.fields, p.linkIndex, "link"))
    && (o.isActive > 0 ==> At(p.fields, p.codeIndex, "status_code"))
    && (o.deWildcard > 0 ==>
          At(p.fields, p.portIndex, "port") && At(p.fields, p.domainIndex, "domain")
          && At(p.fields, p.titleIndex, "title") && At(p.fields, p.fidIndex, "fid"))
    && (o.dedupHost ==> At(p.fields, p.typeIndex, "type"))
    && (|o.filter| > 0 ==>
          p.filterIndex.Keys == (set v | v in vars)
          && forall v :: v in p.filterIndex ==> At(p.fields, p.filterIndex[v], v))
  }

  /** The columns of the UniqByIP and IsActive options, added after fixUrlCheck. */
  datatype ProbeColumns = ProbeColumns(ip: int, link: int, code: int, fields: seq<string>)

  /** The names UniqByIP and IsActive need. */
  function ProbeNames(o: SearchOptions): set<string>
  {
    (if o.uniqByIP then {"ip"} else {}) + (if o.isActive > 0 then {"link", "status_code"} else {})
  }

  /** The three stages of UniqByIP and IsActive append only their names. */
  lemma ProbeAppends(o: SearchOptions, f0: seq<string>, f1: seq<string>, f2: seq<string>, f3: seq<string>)
    requires Appends(f0, f1, if o.uniqByIP then {"ip"} else {})
    requires Appends(f1, f2, if o.isActive > 0 then {"link"} else {})
    requires Appends(f2, f3, if o.isActive > 0 then {"status_code"} else {})
    ensures Appends(f0, f3, ProbeNames(o))
  {
    var n1: set<string> := if o.uniqByIP then {"ip"} else {};
    var n2: set<string> := if o.isActive > 0 then {"link"} else {};
    var n3: set<string> := if o.isActive > 0 then {"status_code"} else {};
    AppendsTrans(f0, f1, f2, n1, n2);
    AppendsTrans(f0, f2, f3, n1 + n2, n3);
    AppendsWiden(f0, f3, n1 + n2 + n3, ProbeNames(o));
  }

  function AddProbeColumns(fields: seq<string>, o: SearchOptions): (r: ProbeColumns)
    ensures Prefix(fields, r.fields)
    ensures o.uniqByIP ==> At(r.fields, r.ip, "ip")
    ensures !o.uniqByIP ==> r.ip == -1
    ensures o.isActive > 0 ==> At(r.fields, r.link, "link") && At(r.fields, r.code, "status_code")
    ensures o.isActive <= 0 ==> r.link == -1 && r.code == -1
    ensures Appends(fields, r.fields, ProbeNames(o))
  {
    var ip := AddIf(o.uniqByIP, fields, "ip");
    var link := AddIf(o.isActive > 0, ip.fields, "link");
    var code := AddIf(o.isActive > 0, link.fields, "status_code");
    PrefixTrans(fields, ip.fields, link.fields);
    PrefixTrans(fields, link.fields, code.fields);
    PrefixTrans(ip.fields, link.fields, code.fields);
    PrefixKeeps(ip.fields, code.fields);
    PrefixKeeps(link.fields, code.fields);
    ProbeAppends(o, fields, ip.fields, link.fields, code.fields);
    ProbeColumns(ip.index, link.index, code.index, code.fields)
  }

  /** The five key columns of the DeWildcard option. */
  datatype KeyColumns = KeyColumns(ip: int, port: int, domain: int, title: int, fid: int, fields: seq<string>)

  function AddWildcardColumns(fields: seq<string>, on: bool): (r: KeyColumns)
    ensures Prefix(fields, r.fields)
    ensures on ==> At(r.fields, r.ip, "ip") && At(r.fields, r.port, "port") && At(r.fields, r.domain, "domain")
                   && At(r.fields, r.title, "title") && At(r.fields, r.fid, "fid")
    ensures !on ==> r == KeyColumns(-1, -1, -1, -1, -1, fields)
    ensures Appends(fields, r.fields, if on then {"ip", "port", "domain", "title", "fid"} else {})
  {
    var ip := AddIf(on, fields, "ip");
    var port := AddIf(on, ip.fields, "port");
    var domain := AddIf(on, port.fields, "domain");
    var title := AddIf(on, domain.fields, "title");
    var fid := AddIf(on, title.fields, "fid");
    WildcardKeeps(on, ip, port, domain, title, fid);
    WildcardAppends(on, fields, ip.fields, port.fields, domain.fields, title.fields, fid.fields);
    KeyColumns(ip.index, port.index, domain.index, title.index, fid.index, fid.fields)
  }

  /** The columns found by the five stages of the DeWildcard option stay where they are. */
  lemma WildcardKeeps(on: bool, ip: Slot, port: Slot, domain: Slot, title: Slot, fid: Slot)
    requires Prefix(ip.fields, port.fields) && Prefix(port.fields, domain.fields)
    requires Prefix(domain.fields, title.fields) && Prefix(title.fields, fid.fields)
    requires on ==> At(ip.fields, ip.index, "ip") && At(port.fields, port.index, "port")
                    && At(domain.fields, domain.index, "domain") && At(title.fields, title.index, "title")
                    && At(fid.fields, fid.index, "fid")
    ensures on ==> At(fid.fields, ip.index, "ip") && At(fid.fields, port.index, "port")
                   && At(fid.fields, domain.index, "domain") && At(fid.fields, title.index, "title")
  {
    PrefixTrans(domain.fields, title.fields, fid.fields);
    PrefixTrans(port.fields, domain.fields, fid.fields);
    PrefixTrans(ip.fields, port.fields, fid.fields);
    AtKeepsIf(on, ip.fields, fid.fields, ip.index, "ip");
    AtKeepsIf(on, port.fields, fid.fields, port.index, "port");
    AtKeepsIf(on, domain.fields, fid.fields, domain.index, "domain");
    AtKeepsIf(on, title.fields, fid.fields, title.index, "title");
  }

  /** The five stages of the DeWildcard option append only its key names. */
  lemma WildcardAppends(on: bool, f0: seq<string>, f1: seq<string>, f2: seq<string>, f3: seq<string>,
                        f4: seq<string>, f5: seq<string>)
    requires Appends(f0, f1, if on then {"ip"} else {}) && Appends(f1, f2, if on then {"port"} else {})
    requires Appends(f2, f3, if on then {"domain"} else {}) && Appends(f3, f4, if on then {"title"} else {})
    requires Appends(f4, f5, if on then {"fid"} else {})
    ensures Appends(f0, f5, if on then {"ip", "port", "domain", "title", "fid"} else {})
  {
    var n1: set<string> := if on then {"ip"} else {};
    var n2: set<string> := if on then {"port"} else {};
    var n3: set<string> := if on then {"domain"} else {};
    var n4: set<string> := if on then {"title"} else {};
    var n5: set<string> := if on then {"fid"} else {};
    AppendsTrans(f0, f1, f2, n1, n2);
    AppendsTrans(f0, f2, f3, n1 + n2, n3);
    AppendsTrans(f0, f3, f4, n1 + n2 + n3, n4);
    AppendsTrans(f0, f4, f5, n1 + n2 + n3 + n4, n5);
    AppendsWiden(f0, f5, n1 + n2 + n3 + n4 + n5, if on then {"ip", "port", "domain", "title", "fid"} else {});
  }

  /**
   * The field planning of HostSearch: fixUrlCheck, then the columns needed by
   * UniqByIP, IsActive, DeWildcard, the filter's variables and DedupHost, in
   * that order. `vars` are the variables of the filter expression.
   */
  function FieldPlan(fields: seq<string>, o: SearchOptions, vars: seq<string>): (r: Result<Plan, string>)
    ensures FixUrlCheck(fields, o.fixUrl).Err? <==> r.Err?
    ensures r.Err? ==> r.error == NoHostWithFixUrl
    ensures r.Ok? ==> ValidPlan(r.value, o, vars)
    ensures r.Ok? ==>
      var u := FixUrlCheck(fields, o.fixUrl).value;
      r.value.rawFieldSize == u.rawFieldSize && Appends(u.fields, r.value.fields, Needed(o, vars))
  {
    match FixUrlCheck(fields, o.fixUrl)
    case Err(e) => Err(e)
    case Ok(u) => Ok(ExtendPlan(u, o, vars))
  }

  /** The columns that the options need, added after fixUrlCheck in the order HostSearch adds them. */
  function ExtendPlan(u: UrlCheck, o: SearchOptions, vars: seq<string>): (p: Plan)
    requires GoodUrlCheck(u, o.fixUrl)
    ensures ValidPlan(p, o, vars) && p.rawFieldSize == u.rawFieldSize
    ensures Appends(u.fields, p.fields, Needed(o, vars))
  {
      var probe := AddProbeColumns(u.fields, o);
      var key := AddWildcardColumns(probe.fields, o.deWildcard > 0);
      var fv := if |o.filter| > 0 then AddVars(key.fields, vars) else VarSlots(key.fields, map[]);
      var typ := AddIf(o.dedupHost, fv.fields, "type");
      var link := AddIf(o.dedupHost, typ.fields, "link");
      ExtendValid(u, o, vars, probe, key, fv, typ, link);
      Assemble(u, probe, key, fv, typ, link, o)
  }

  /** The stages of ExtendPlan, each applied to the fields of the one before, assemble a valid plan. */
  lemma ExtendValid(u: UrlCheck, o: SearchOptions, vars: seq<string>, probe: ProbeColumns, key: KeyColumns,
                    fv: VarSlots, typ: Slot, link: Slot)
    requires GoodUrlCheck(u, o.fixUrl)
    requires probe == AddProbeColumns(u.fields, o)
    requires key == AddWildcardColumns(probe.fields, o.deWildcard > 0)
    requires fv == if |o.filter| > 0 then AddVars(key.fields, vars) else VarSlots(key.fields, map[])
    requires typ == AddIf(o.dedupHost, fv.fields, "type") && link == AddIf(o.dedupHost, typ.fields, "link")
    ensures var p := Assemble(u, probe, key, fv, typ, link, o);
      ValidPlan(p, o, vars) && p.rawFieldSize == u.rawFieldSize && Appends(u.fields, p.fields, Needed(o, vars))
  {
    FilterStage(key.fields, fv, o, vars);
    AssembleValid(u, probe, key, fv, typ, link, o, vars);
    StagesAppend(u.fields, probe.fields, key.fields, fv.fields, typ.fields, link.fields, o, vars);
  }

  /** The filter stage: AddVars with a filter, nothing without one. */
  lemma FilterStage(fields: seq<string>, fv: VarSlots, o: SearchOptions, vars: seq<string>)
    requires fv == if |o.filter| > 0 then AddVars(fields, vars) else VarSlots(fields, map[])
    ensures Prefix(fields, fv.fields) && (|o.filter| > 0 ==> VarsIndexed(fv, vars))
    ensures Appends(fields, fv.fields, if |o.filter| > 0 then set v | v in vars else {})
  {
  }

  /**
   * The names the options need: ip for UniqByIP and DeWildcard, link for
   * IsActive and DedupHost, status_code for IsActive, the other key columns
   * for DeWildcard, type for DedupHost and the filter's variables.
   */
  function Needed(o: SearchOptions, vars: seq<string>): set<string>
  {
    (if o.uniqByIP || o.deWildcard > 0 then {"ip"} else {})
    + (if o.isActive > 0 || o.dedupHost then {"link"} else {})
    + (if o.isActive > 0 then {"status_code"} else {})
    + (if o.deWildcard > 0 then {"port", "domain", "title", "fid"} else {})
    + (if o.dedupHost then {"type"} else {})
    + (if |o.filter| > 0 then set v | v in vars else {})
  }

  /** The stages together append only needed names. */
  lemma StagesAppend(f0: seq<string>, f1: seq<string>, f2: seq<string>, f3: seq<string>, f4: seq<string>,
                     f5: seq<string>, o: SearchOptions, vars: seq<string>)
    requires Appends(f0, f1, ProbeNames(o))
    requires Appends(f1, f2, if o.deWildcard > 0 then {"ip", "port", "domain", "title", "fid"} else {})
    requires Appends(f2, f3, if |o.filter| > 0 then set v | v in vars else {})
    requires Appends(f3, f4, if o.dedupHost then {"type"} else {})
    requires Appends(f4, f5, if o.dedupHost then {"link"} else {})
    ensures Appends(f0, f5, Needed(o, vars))
  {
    var n1 := ProbeNames(o);
    var n2: set<string> := if o.deWildcard > 0 then {"ip", "port", "domain", "title", "fid"} else {};
    var n3: set<string> := if |o.filter| > 0 then set v | v in vars else {};
    var n4: set<string> := if o.dedupHost then {"type"} else {};
    var n5: set<string> := if o.dedupHost then {"link"} else {};
    AppendsTrans(f0, f1, f2, n1, n2);
    AppendsTrans(f0, f2, f3, n1 + n2, n3);
    AppendsTrans(f0, f3, f4, n1 + n2 + n3, n4);
    AppendsTrans(f0, f4, f5, n1 + n2 + n3 + n4, n5);
    AppendsWiden(f0, f5, n1 + n2 + n3 + n4 + n5, Needed(o, vars));
  }

  /** A valid plan has a column for every needed name. */
  lemma NeededArePlanned(p: Plan, o: SearchOptions, vars: seq<string>)
    requires ValidPlan(p, o, vars)
    ensures forall n :: n in Needed(o, vars) ==> n in p.fields
  {
    forall n | n in Needed(o, vars) ensures n in p.fields {
      if n in (if |o.filter| > 0 then set v | v in vars else {}) {
        assert p.fields[p.filterIndex[n]] == n;
      } else if n == "ip" {
        assert p.fields[p.ipIndex] == n;
      } else if n == "link" {
        assert p.fields[p.linkIndex] == n;
      } else if n == "status_code" {
        assert p.fields[p.codeIndex] == n;
      } else if n == "port" {
        assert p.fields[p.portIndex] == n;
      } else if n == "domain" {
        assert p.fields[p.domainIndex] == n;
      } else if n == "title" {
        assert p.fields[p.titleIndex] == n;
      } else if n == "fid" {
        assert p.fields[p.fidIndex] == n;
      } else {
        assert p.fields[p.typeIndex] == n;
      }
    }
  }

  /**
   * The columns the planning adds after fixUrlCheck are exactly the needed
   * names that fixUrlCheck's fields lack, each added once.
   */
  lemma PlanAddsMissing(fields: seq<string>, o: SearchOptions, vars: seq<string>)
    requires FixUrlCheck(fields, o.fixUrl).Ok?
    ensures var u := FixUrlCheck(fields, o.fixUrl).value;
      var p := FieldPlan(fields, o, vars).value;
      && Prefix(u.fields, p.fields)
      && (forall n :: n in p.fields[|u.fields|..] <==> n in Needed(o, vars) && n !in u.fields)
      && (forall i, j :: |u.fields| <= i < j < |p.fields| ==> p.fields[i] != p.fields[j])
  {
    var u := FixUrlCheck(fields, o.fixUrl).value;
    var p := FieldPlan(fields, o, vars).value;
    NeededArePlanned(p, o, vars);
    AppendsExactly(u.fields, p.fields, Needed(o, vars));
  }

  /** When every name is present afterwards, the appended columns are exactly the names that were missing. */
  lemma AppendsExactly(a: seq<string>, b: seq<string>, names: set<string>)
    requires Appends(a, b, names) && forall n :: n in names ==> n in b
    ensures forall n :: n in b[|a|..] <==> n in names && n !in a
  {
    forall n ensures n in b[|a|..] <==> n in names && n !in a {
      if n in b[|a|..] {
        var i :| 0 <= i < |b| - |a| && b[|a|..][i] == n;
        assert b[|a| + i] == n;
      }
      if n in names && n !in a {
        var i :| 0 <= i < |b| && b[i] == n;
        assert b[|a|..][i - |a|] == n;
      }
    }
  }


  /** The plan made of the columns found by each stage of FieldPlan. */
  function Assemble(u: UrlCheck, probe: ProbeColumns, key: KeyColumns, fv: VarSlots,
                    typ: Slot, link: Slot, o: SearchOptions): Plan
  {
    Plan(link.fields, u.rawFieldSize, u.hostIndex, u.protocolIndex,
         if o.deWildcard > 0 then key.ip else probe.ip,
         if o.dedupHost then link.index else probe.link,
         probe.code, key.port, key.domain, key.title, key.fid, typ.index,
         fv.indexes)
  }

  /** The stages' own facts make the assembled plan valid. */
  lemma AssembleValid(u: UrlCheck, probe: ProbeColumns, key: KeyColumns, fv: VarSlots,
                      typ: Slot, link: Slot, o: SearchOptions, vars: seq<string>)
    requires GoodUrlCheck(u, o.fixUrl)
    requires Prefix(u.fields, probe.fields)
    requires o.uniqByIP ==> At(probe.fields, probe.ip, "ip")
    requires o.isActive > 0 ==> At(probe.fields, probe.link, "link") && At(probe.fields, probe.code, "status_code")
    requires Prefix(probe.fields, key.fields)
    requires o.deWildcard > 0 ==>
      (At(key.fields, key.ip, "ip") && At(key.fields, key.port, "port")
       && At(key.fields, key.domain, "domain") && At(key.fields, key.title, "title") && At(key.fields, key.fid, "fid"))
    requires Prefix(key.fields, fv.fields)
    requires |o.filter| > 0 ==> VarsIndexed(fv, vars)
    requires Prefix(fv.fields, typ.fields) && Prefix(typ.fields, link.fields)
    requires o.dedupHost ==> At(typ.fields, typ.index, "type") && At(link.fields, link.index, "link")
    ensures var p := Assemble(u, probe, key, fv, typ, link, o);
      ValidPlan(p, o, vars) && Prefix(u.fields, p.fields) && p.rawFieldSize == u.rawFieldSize
  {
    var all := link.fields;
    PrefixTrans(fv.fields, typ.fields, all);
    PrefixTrans(key.fields, fv.fields, all);
    PrefixTrans(probe.fields, key.fields, all);
    PrefixTrans(u.fields, probe.fields, all);
    AtKeepsIf(o.fixUrl, u.fields, all, u.hostIndex, "host");
    AtKeepsIf(o.fixUrl, u.fields, all, u.protocolIndex, "protocol");
    AtKeepsIf(o.uniqByIP, probe.fields, all, probe.ip, "ip");
    AtKeepsIf(o.isActive > 0, probe.fields, all, probe.link, "link");
    AtKeepsIf(o.isActive > 0, probe.fields, all, probe.code, "status_code");
    AtKeepsIf(o.deWildcard > 0, key.fields, all, key.ip, "ip");
    AtKeepsIf(o.deWildcard > 0, key.fields, all, key.port, "port");
    AtKeepsIf(o.deWildcard > 0, key.fields, all, key.domain, "domain");
    AtKeepsIf(o.deWildcard > 0, key.fields, all, key.title, "title");
    AtKeepsIf(o.deWildcard > 0, key.fields, all, key.fid, "fid");
    AtKeepsIf(o.dedupHost, typ.fields, all, typ.index, "type");
    if |o.filter| > 0 {
      forall v | v in fv.indexes ensures At(all, fv.indexes[v], v) {
        AtKeepsIf(true, fv.fields, all, fv.indexes[v], v);
      }
    }
  }
}
