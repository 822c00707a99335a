/** Drift: the live observations compared with the active baseline. */
module Drift {
  import opened Common
  import opened GooseKey
  import opened Collector

  /** `{key(e): e for e in list}`: the last entry with a key wins. */
  function IndexBy<V>(key: V -> string, list: seq<V>): map<string, V> {
    if list == [] then map[]
    else IndexBy(key, list[..|list| - 1])[key(list[|list| - 1]) := list[|list| - 1]]
  }

  function DriftKey(e: GooseEntry): string {
    Joined(Lower(e.mac), e.appid, e.gocbRef)
  }

  /** Two entries are the same publisher to drift exactly when appid and control block are equal and the
      MACs differ at most in case, as long as no MAC holds the separator. */
  lemma DriftKeyIdentifies(e: GooseEntry, f: GooseEntry)
    requires '|' !in e.mac && '|' !in f.mac
    ensures DriftKey(e) == DriftKey(f) <==>
      && e.appid == f.appid && e.gocbRef == f.gocbRef
      && |e.mac| == |f.mac| && forall i :: 0 <= i < |e.mac| ==> SameLetter(e.mac[i], f.mac[i])
  {
    assert forall i :: 0 <= i < |e.mac| ==> Lower(e.mac)[i] == LowerChar(e.mac[i]) && e.mac[i] in e.mac;
    assert forall i :: 0 <= i < |f.mac| ==> Lower(f.mac)[i] == LowerChar(f.mac[i]) && f.mac[i] in f.mac;
    JoinedInjective(Lower(e.mac), e.appid, e.gocbRef, Lower(f.mac), f.appid, f.gocbRef);
    LowerIgnoresCase(e.mac, f.mac);
  }

  function GooseByKey(iec: Iec): map<string, GooseEntry> {
    IndexBy(DriftKey, iec.goose)
  }

  function MmsByIp(iec: Iec): map<string, MmsEntry> {
    IndexBy((e: MmsEntry) => e.iedIp, iec.mms)
  }

  /** Old and new value of each attribute that moved. */
  datatype GooseChange = GooseChange(production: Option<(bool, bool)>, confRev: Option<(Option<int>, Option<int>)>)

  datatype ClientChange = ClientChange(added: set<string>, removed: set<string>)

  datatype Report = Report(
    gooseAdded: set<string>, gooseRemoved: set<string>, gooseChanged: map<string, GooseChange>,
    mmsAdded: set<string>, mmsRemoved: set<string>, clientChanges: map<string, ClientChange>)
  {
    function Added(): nat { |gooseAdded| + |mmsAdded| }
    function Removed(): nat { |gooseRemoved| + |mmsRemoved| }
    function Changed(): nat { |gooseChanged| + |clientChanges| }
    function Total(): nat { Added() + Removed() + Changed() }
  }

  function GooseDiff(a: GooseEntry, b: GooseEntry): GooseChange {
    GooseChange(if a.production != b.production then Some((a.production, b.production)) else None,
                if b.confRev.Some? && a.confRev != b.confRev then Some((a.confRev, b.confRev)) else None)
  }

  function ClientDiff(a: MmsEntry, b: MmsEntry): ClientChange {
    ClientChange(b.clients - a.clients, a.clients - b.clients)
  }

  const NO_GOOSE_CHANGE := GooseChange(None, None)
  const NO_CLIENT_CHANGE := ClientChange({}, {})

  function GooseChanges(a: map<string, GooseEntry>, l: map<string, GooseEntry>): map<string, GooseChange> {
    map k | k in a && k in l && GooseDiff(a[k], l[k]) != NO_GOOSE_CHANGE :: GooseDiff(a[k], l[k])
  }

  function ClientChanges(a: map<string, MmsEntry>, l: map<string, MmsEntry>): map<string, ClientChange> {
    map ip | ip in a && ip in l && ClientDiff(a[ip], l[ip]) != NO_CLIENT_CHANGE :: ClientDiff(a[ip], l[ip])
  }

  /** Two blocks, as the dictionaries compute_drift builds from them. */
  datatype Tables = Tables(goose: map<string, GooseEntry>, mms: map<string, MmsEntry>)

  function TablesOf(iec: Iec): Tables {
    Tables(GooseByKey(iec), MmsByIp(iec))
  }

  function Compare(a: Tables, l: Tables): Report {
    Report(l.goose.Keys - a.goose.Keys, a.goose.Keys - l.goose.Keys, GooseChanges(a.goose, l.goose),
           l.mms.Keys - a.mms.Keys, a.mms.Keys - l.mms.Keys, ClientChanges(a.mms, l.mms))
  }

  function DriftOf(active: Iec, live: Iec): Report {
    Compare(TablesOf(active), TablesOf(live))
  }

  lemma GooseChangesOneMore(a: map<string, GooseEntry>, l: map<string, GooseEntry>, todo: set<string>, k: string)
    requires k in todo && todo <= a.Keys
    ensures var before := GooseChanges(a - todo, l);
      GooseChanges(a - (todo - {k}), l)
      == if k in l && GooseDiff(a[k], l[k]) != NO_GOOSE_CHANGE then before[k := GooseDiff(a[k], l[k])] else before
  {}

  /** The loop over active publishers that looks for changed attributes. */
  method ChangedPublishers(a: map<string, GooseEntry>, l: map<string, GooseEntry>)
    returns (changed: map<string, GooseChange>)
    ensures changed == GooseChanges(a, l)
  {
    changed := map[];
    var todo := a.Keys;
    while todo != {}
      invariant todo <= a.Keys
      invariant changed == GooseChanges(a - todo, l)
      decreases todo
    {
      var k :| k in todo;
      GooseChangesOneMore(a, l, todo, k);
      todo := todo - {k};
      if k in l {
        var diffs := NO_GOOSE_CHANGE;
        if a[k].production != l[k].production {
          diffs := diffs.(production := Some((a[k].production, l[k].production)));
        }
        if l[k].confRev != None && a[k].confRev != l[k].confRev {
          diffs := diffs.(confRev := Some((a[k].confRev, l[k].confRev)));
        }
        if diffs != NO_GOOSE_CHANGE { changed := changed[k := diffs]; }
      }
    }
    assert a - todo == a;
  }

  /** The loop over active IEDs that looks for changed client lists. */
  method ChangedClients(a: map<string, MmsEntry>, l: map<string, MmsEntry>)
    returns (changed: map<string, ClientChange>)
    ensures changed == ClientChanges(a, l)
  {
    changed := map[];
    var todo := a.Keys;
    while todo != {}
      invariant todo <= a.Keys
      invariant changed == ClientChanges(a - todo, l)
      decreases todo
    {
      var ip :| ip in todo;
      todo := todo - {ip};
      if ip in l {
        var added, removed := l[ip].clients - a[ip].clients, a[ip].clients - l[ip].clients;
        if added != {} || removed != {} {
          changed := changed[ip := ClientChange(added, removed)];
        }
      }
    }
    assert a - todo == a;
  }

  /** compute_drift; `generatedAt` is the live document's stamp, "" when it has none. */
  method ComputeDrift(active: Iec, live: Iec, generatedAt: string)
    returns (report: Report, hasActive: bool, hasLive: bool)
    ensures report == DriftOf(active, live)
    ensures !hasActive <==> active.goose == [] && active.mms == []
    ensures !hasLive <==> generatedAt == "" && live.goose == [] && live.mms == []
  {
    hasActive := active.goose != [] || active.mms != [];
    hasLive := generatedAt != "" || live.goose != [] || live.mms != [];
    var aG, lG := GooseByKey(active), GooseByKey(live);
    var gooseChanged := ChangedPublishers(aG, lG);
    var aM, lM := MmsByIp(active), MmsByIp(live);
    var clientChanges := ChangedClients(aM, lM);
    report := Report(lG.Keys - aG.Keys, aG.Keys - lG.Keys, gooseChanged,
                     lM.Keys - aM.Keys, aM.Keys - lM.Keys, clientChanges);
  }

  // ---- when there is no drift -------------------------------------------------------

  /** The publisher tables agree on everything drift looks at. */
  ghost predicate PublishersAgree(a: map<string, GooseEntry>, l: map<string, GooseEntry>) {
    a.Keys == l.Keys && forall k :: k in a && k in l ==>
      a[k].production == l[k].production && (l[k].confRev.Some? ==> a[k].confRev == l[k].confRev)
  }

  ghost predicate IedsAgree(a: map<string, MmsEntry>, l: map<string, MmsEntry>) {
    a.Keys == l.Keys && forall ip :: ip in a && ip in l ==> a[ip].clients == l[ip].clients
  }

  lemma CommonUnchanged(a: map<string, GooseEntry>, l: map<string, GooseEntry>, k: string)
    requires k in a && k in l
    ensures k !in GooseChanges(a, l) <==>
      a[k].production == l[k].production && (l[k].confRev.Some? ==> a[k].confRev == l[k].confRev)
  {}

  lemma ClientsUnchanged(a: map<string, MmsEntry>, l: map<string, MmsEntry>, ip: string)
    requires ip in a && ip in l
    ensures ip !in ClientChanges(a, l) <==> a[ip].clients == l[ip].clients
  {
    var added, removed := l[ip].clients - a[ip].clients, a[ip].clients - l[ip].clients;
    if added == {} && removed == {} {
      assert forall c :: c in a[ip].clients ==> c in l[ip].clients || c in removed;
      assert forall c :: c in l[ip].clients ==> c in a[ip].clients || c in added;
      assert a[ip].clients == l[ip].clients;
    }
  }

  lemma EmptyDifference(a: set<string>, b: set<string>)
    ensures |b - a| + |a - b| == 0 <==> a == b
  {
    if |b - a| + |a - b| == 0 {
      assert forall x :: x in a ==> x in b || x in a - b;
      assert forall x :: x in b ==> x in a || x in b - a;
      assert a == b;
    }
  }

  lemma NoPublisherDrift(a: map<string, GooseEntry>, l: map<string, GooseEntry>)
    ensures |l.Keys - a.Keys| + |a.Keys - l.Keys| + |GooseChanges(a, l)| == 0 <==> PublishersAgree(a, l)
  {
    EmptyDifference(a.Keys, l.Keys);
    var changed := GooseChanges(a, l);
    assert |changed| == 0 <==> forall k :: k in a && k in l ==> k !in changed by {
      if forall k :: k in a && k in l ==> k !in changed { assert changed.Keys == {}; }
    }
    forall k | k in a && k in l
      ensures k !in changed <==>
        a[k].production == l[k].production && (l[k].confRev.Some? ==> a[k].confRev == l[k].confRev)
    {
      CommonUnchanged(a, l, k);
    }
  }

  lemma NoIedDrift(a: map<string, MmsEntry>, l: map<string, MmsEntry>)
    ensures |l.Keys - a.Keys| + |a.Keys - l.Keys| + |ClientChanges(a, l)| == 0 <==> IedsAgree(a, l)
  {
    EmptyDifference(a.Keys, l.Keys);
    var changed := ClientChanges(a, l);
    assert |changed| == 0 <==> forall ip :: ip in a && ip in l ==> ip !in changed by {
      if forall ip :: ip in a && ip in l ==> ip !in changed { assert changed.Keys == {}; }
    }
    forall ip | ip in a && ip in l ensures ip !in changed <==> a[ip].clients == l[ip].clients {
      ClientsUnchanged(a, l, ip);
    }
  }

  /** Total drift is zero exactly when the two blocks agree: same publishers and IEDs, same
      production flags, no differing revision among the live ones that have one, same clients. */
  lemma TotalZeroIffAgree(active: Iec, live: Iec)
    ensures DriftOf(active, live).Total() == 0 <==>
      PublishersAgree(GooseByKey(active), GooseByKey(live)) && IedsAgree(MmsByIp(active), MmsByIp(live))
  {
    NoPublisherDrift(GooseByKey(active), GooseByKey(live));
    NoIedDrift(MmsByIp(active), MmsByIp(live));
  }

  /** Every changed publisher shows the active value first and the live value second, of exactly the
      attributes that differ; a revision counts only if the live one is known. */
  lemma PublisherChangeShows(active: Iec, live: Iec, k: string)
    requires k in GooseByKey(active) && k in GooseByKey(live)
    ensures var a, l, d := GooseByKey(active)[k], GooseByKey(live)[k], DriftOf(active, live);
      && (k in d.gooseChanged <==> a.production != l.production || (l.confRev != None && a.confRev != l.confRev))
      && (k in d.gooseChanged ==>
            && d.gooseChanged[k].production
               == (if a.production != l.production then Some((a.production, l.production)) else None)
            && d.gooseChanged[k].confRev
               == (if l.confRev != None && a.confRev != l.confRev then Some((a.confRev, l.confRev)) else None))
  {}

  /** The summary counts every publisher and IED that is only live, only active, or changed, once. */
  lemma SummaryCounts(active: Iec, live: Iec)
    ensures var d, a, l := DriftOf(active, live), TablesOf(active), TablesOf(live);
      && d.Added() == |l.goose.Keys - a.goose.Keys| + |l.mms.Keys - a.mms.Keys|
      && d.Removed() == |a.goose.Keys - l.goose.Keys| + |a.mms.Keys - l.mms.Keys|
      && d.Changed() == |d.gooseChanged| + |d.clientChanges|
      && d.Total() == d.Added() + d.Removed() + d.Changed()
  {}

  lemma SetSplit(a: set<string>, l: set<string>)
    ensures |l| == |l - a| + |a * l| && |a| == |a - l| + |a * l|
  {
    assert l == (l - a) + a * l && a == (a - l) + a * l;
  }

  /** Live keys are the added and the common ones, active keys the removed and the common ones,
      and every change is about a common key. */
  lemma KeysSplit(a: Tables, l: Tables)
    ensures var d := Compare(a, l);
      var commonGoose, commonMms := a.goose.Keys * l.goose.Keys, a.mms.Keys * l.mms.Keys;
      && |l.goose| == |d.gooseAdded| + |commonGoose| && |a.goose| == |d.gooseRemoved| + |commonGoose|
      && |l.mms| == |d.mmsAdded| + |commonMms| && |a.mms| == |d.mmsRemoved| + |commonMms|
      && d.gooseChanged.Keys <= commonGoose && d.clientChanges.Keys <= commonMms
  {
    SetSplit(a.goose.Keys, l.goose.Keys);
    SetSplit(a.mms.Keys, l.mms.Keys);
  }

  // ---- indexing a listing gives back the map ---------------------------------------------

  lemma {:induction false} IndexByDistinct<V>(key: V -> string, list: seq<V>)
    requires forall i, j :: 0 <= i < j < |list| ==> key(list[i]) != key(list[j])
    ensures forall i :: 0 <= i < |list| ==>
      key(list[i]) in IndexBy(key, list) && IndexBy(key, list)[key(list[i])] == list[i]
    ensures forall k :: k in IndexBy(key, list) ==> exists i :: 0 <= i < |list| && key(list[i]) == k
  {
    if list != [] {
      var front, last := list[..|list| - 1], list[|list| - 1];
      IndexByDistinct(key, front);
      assert IndexBy(key, list) == IndexBy(key, front)[key(last) := last];
      forall k | k in IndexBy(key, list) ensures exists i :: 0 <= i < |list| && key(list[i]) == k {
        if k == key(last) {
          assert list[|list| - 1] == last;
        } else {
          var i :| 0 <= i < |front| && key(front[i]) == k;
          assert list[i] == front[i];
        }
      }
    }
  }

  /** Of several entries with one key the table holds the last. */
  lemma {:induction false} IndexByLast<V>(key: V -> string, list: seq<V>, i: nat)
    requires i < |list| && forall j :: i < j < |list| ==> key(list[j]) != key(list[i])
    ensures key(list[i]) in IndexBy(key, list) && IndexBy(key, list)[key(list[i])] == list[i]
  {
    var n := |list| - 1;
    if i < n {
      IndexByLast(key, list[..n], i);
      assert key(list[n]) != key(list[i]);
    }
  }

  lemma IndexOfListing<V>(key: V -> string, list: seq<V>, order: seq<string>, m: map<string, V>)
    requires Lists(list, order, m) && forall k :: k in m ==> key(m[k]) == k
    ensures IndexBy(key, list) == m
  {
    forall i | 0 <= i < |list| ensures key(list[i]) == order[i] {}
    IndexByDistinct(key, list);
    forall k | k in m ensures k in IndexBy(key, list) && IndexBy(key, list)[k] == m[k] {
      assert k in order;
      var i :| 0 <= i < |order| && order[i] == k;
      assert key(list[i]) == k;
    }
    forall k | k in IndexBy(key, list) ensures k in m {
      var i :| 0 <= i < |list| && key(list[i]) == k;
      assert order[i] in m;
    }
  }
}
