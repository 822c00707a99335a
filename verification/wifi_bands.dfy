/** The priority bands over every sequence of connects, re-pinnings and outside changes. The commands
    on single profiles and the write of the pinned file are taken to succeed; the listing command may
    fail at any time. */
module WifiBands {
  import opened Common
  import opened Text
  import opened WifiPriority

  datatype World = World(profiles: Profiles, pinned: seq<string>)

  /** Pinned names are saved, at most ten, and carry the pinned band in their chosen order. */
  ghost predicate PinnedOk(w: World) {
    && Distinct(w.pinned) && |w.pinned| <= PINNED_MAX
    && forall i :: 0 <= i < |w.pinned| ==>
         w.pinned[i] in w.profiles && w.profiles[w.pinned[i]].priority == PINNED_BASE - i
  }

  /** Besides, every other profile is at or below the top of the recency band. */
  ghost predicate Bands(w: World) {
    PinnedOk(w) && forall n :: n in w.profiles && n !in w.pinned ==> w.profiles[n].priority <= PRIORITY_BASE
  }

  /** A connect that took effect: the command, then promotion with pruning. Without the promotion,
      because the listing command or the connect command itself fails, the profile is left behind. */
  ghost predicate ConnectStep(w: World, w': World, ssid: string, keep: nat, promoted: bool) {
    keep > 0 && w'.pinned == w.pinned && exists mid, ranking ::
      ConnectOutcome(w.profiles, mid, w'.profiles, ranking, w.pinned, ssid, keep, promoted, {})
  }

  /** The names that the listing command shows. */
  function Listed(w: World, listing: bool): set<string> {
    if listing then w.profiles.Keys else {}
  }

  /** A re-pinning. */
  ghost predicate RepinStep(w: World, w': World, order: seq<Option<string>>, listing: bool) {
    && |Cleaned(order)| <= PINNED_MAX
    && w'.pinned == Saved(Cleaned(order), Listed(w, listing))
    && Repinning(w.profiles, w'.profiles, w.pinned, w'.pinned, Listed(w, listing), {})
  }

  /** Anything at all happens to unpinned profiles outside the console. */
  ghost predicate OutsideStep(w: World, w': World) {
    && w'.pinned == w.pinned
    && forall n :: n in w.pinned && n in w.profiles ==> n in w'.profiles && w'.profiles[n] == w.profiles[n]
  }

  datatype Action =
    | Connect(ssid: string, keep: nat, promoted: bool)
    | Repin(order: seq<Option<string>>, listing: bool)
    | Outside

  ghost predicate Step(w: World, a: Action, w': World) {
    match a
    case Connect(ssid, keep, promoted) => ConnectStep(w, w', ssid, keep, promoted)
    case Repin(order, listing) => RepinStep(w, w', order, listing)
    case Outside => OutsideStep(w, w')
  }

  ghost predicate Steps(ws: seq<World>, actions: seq<Action>) {
    |ws| == |actions| + 1 && forall k :: 0 <= k < |actions| ==> Step(ws[k], actions[k], ws[k + 1])
  }

  /** Every pinned AP is saved and outranks every unpinned one. */
  ghost predicate Outranks(w: World) {
    forall p, n :: p in w.pinned && n in w.profiles && n !in w.pinned ==>
      p in w.profiles && w.profiles[p].priority > w.profiles[n].priority
  }

  // ---- one step -----------------------------------------------------------------------------

  /** The promotion inside a connect. */
  lemma PromotionIn(w: World, w': World, ssid: string, keep: nat) returns (mid: Profiles, ranking: seq<Conn>)
    requires ConnectStep(w, w', ssid, keep, true)
    ensures Connected(w.profiles, mid, ssid) && Promoted(mid, w'.profiles, ranking, w.pinned, ssid, keep, {})
  {
    mid, ranking :| ConnectOutcome(w.profiles, mid, w'.profiles, ranking, w.pinned, ssid, keep, true, {});
  }

  lemma PromotionLowersOthers(mid: Profiles, after: Profiles, ranking: seq<Conn>, pinned: seq<string>, ssid: string,
                              keep: nat, n: string)
    requires Promoted(mid, after, ranking, pinned, ssid, keep, {}) && n in after && n !in pinned
    ensures after[n].priority <= PRIORITY_BASE
  {
    assert Named(ranking, n);
  }

  lemma PromotionKeepsPinned(w: World, mid: Profiles, w': World, ranking: seq<Conn>, ssid: string, keep: nat, n: string)
    requires Promoted(mid, w'.profiles, ranking, w.pinned, ssid, keep, {}) && n in w.pinned && n in mid
    ensures n in w'.profiles && w'.profiles[n] == mid[n]
  {
    assert !Named(ranking, n);
  }

  lemma CommandKeepsPinned(w: World, mid: Profiles, ssid: string)
    requires PinnedOk(w) && Connected(w.profiles, mid, ssid)
    ensures PinnedOk(World(mid, w.pinned))
  {}

  lemma PromotionMakesBands(w: World, w': World, ranking: seq<Conn>, ssid: string, keep: nat)
    requires PinnedOk(w) && w'.pinned == w.pinned
    requires Promoted(w.profiles, w'.profiles, ranking, w.pinned, ssid, keep, {})
    ensures Bands(w')
  {
    forall i | 0 <= i < |w.pinned|
      ensures w.pinned[i] in w'.profiles && w'.profiles[w.pinned[i]].priority == PINNED_BASE - i
    {
      PromotionKeepsPinned(w, w.profiles, w', ranking, ssid, keep, w.pinned[i]);
    }
    forall n | n in w'.profiles && n !in w'.pinned ensures w'.profiles[n].priority <= PRIORITY_BASE {
      PromotionLowersOthers(w.profiles, w'.profiles, ranking, w.pinned, ssid, keep, n);
    }
  }

  /** A connect establishes the bands, whatever priorities the unpinned profiles had before. */
  lemma ConnectKeepsBands(w: World, w': World, ssid: string, keep: nat)
    requires PinnedOk(w) && ConnectStep(w, w', ssid, keep, true)
    ensures Bands(w')
  {
    var mid, ranking := PromotionIn(w, w', ssid, keep);
    CommandKeepsPinned(w, mid, ssid);
    PromotionMakesBands(World(mid, w.pinned), w', ranking, ssid, keep);
  }

  /** Without a promotion it only adds a profile at priority zero. */
  lemma CommandKeepsBands(w: World, w': World, ssid: string, keep: nat)
    requires PinnedOk(w) && ConnectStep(w, w', ssid, keep, false)
    ensures PinnedOk(w') && (Bands(w) ==> Bands(w'))
  {
    var mid, ranking :| ConnectOutcome(w.profiles, mid, w'.profiles, ranking, w.pinned, ssid, keep, false, {});
  }

  /** A re-pinning puts the pinned names into their band from any world at all. */
  lemma RepinPins(w: World, w': World, order: seq<Option<string>>, listing: bool)
    requires RepinStep(w, w', order, listing)
    ensures PinnedOk(w')
  {
    CleanedIsDistinct(order);
    SavedNames(Cleaned(order), Listed(w, listing));
  }

  /** And it keeps the other profiles below the band if they were and the listing command answers. */
  lemma RepinKeepsBands(w: World, w': World, order: seq<Option<string>>)
    requires Bands(w) && RepinStep(w, w', order, true)
    ensures Bands(w')
  {
    RepinPins(w, w', order, true);
  }

  /** With a failing listing it empties the pinned list and leaves every profile as it is. */
  lemma BlindRepin(w: World, w': World, order: seq<Option<string>>)
    requires RepinStep(w, w', order, false)
    ensures w'.pinned == [] && w'.profiles == w.profiles
  {
    NoneSaved(Cleaned(order));
  }

  lemma {:induction false} NoneSaved(names: seq<string>)
    ensures Saved(names, {}) == []
  {
    if names != [] { NoneSaved(names[..|names| - 1]); }
  }

  /** The documented fall back to the recency band: every saved name that leaves the pinned list ends at
      priority zero if and only if each was there already, or is listed and its command succeeds. */
  lemma FallBackIff(before: Profiles, after: Profiles, oldOrder: seq<string>, newOrder: seq<string>,
                    listed: set<string>, failing: set<string>)
    requires Repinning(before, after, oldOrder, newOrder, listed, failing)
    ensures (forall n :: n in oldOrder && n in after && n !in newOrder ==> after[n].priority == 0)
       <==> forall n :: n in oldOrder && n in before && n !in newOrder ==>
              before[n].priority == 0 || (n in listed && n !in failing)
  {}

  // ---- whole runs -------------------------------------------------------------------------------

  /** The action keeps unpinned profiles below the pinned band. */
  predicate Tame(a: Action) {
    !a.Outside? && (a.Repin? ==> a.listing)
  }

  lemma StepKeepsPinned(w: World, a: Action, w': World)
    requires PinnedOk(w) && Step(w, a, w')
    ensures PinnedOk(w')
    ensures (a.Connect? && a.promoted) || (Bands(w) && Tame(a)) ==> Bands(w')
  {
    match a
    case Connect(ssid, keep, promoted) =>
      if promoted { ConnectKeepsBands(w, w', ssid, keep); } else { CommandKeepsBands(w, w', ssid, keep); }
    case Repin(order, listing) =>
      RepinPins(w, w', order, listing);
      if Bands(w) && listing { RepinKeepsBands(w, w', order); }
    case Outside =>
  }

  lemma {:induction false} RunKeepsPinned(ws: seq<World>, actions: seq<Action>, i: nat, k: nat)
    requires Steps(ws, actions) && i <= k < |ws| && PinnedOk(ws[i])
    ensures PinnedOk(ws[k])
    decreases k
  {
    if i < k {
      RunKeepsPinned(ws, actions, i, k - 1);
      StepKeepsPinned(ws[k - 1], actions[k - 1], ws[k]);
    }
  }

  /** Step `c` promotes, and up to `k` no re-pinning has met a failing listing and nothing has been
      changed outside. */
  predicate TameSince(actions: seq<Action>, c: nat, k: nat)
    requires c < k <= |actions|
  {
    actions[c].Connect? && actions[c].promoted && forall j :: c < j < k ==> Tame(actions[j])
  }

  lemma {:induction false} RunReachesBands(ws: seq<World>, actions: seq<Action>, c: nat, k: nat)
    requires Steps(ws, actions) && c < k < |ws| && PinnedOk(ws[0]) && TameSince(actions, c, k)
    ensures Bands(ws[k])
    decreases k
  {
    RunKeepsPinned(ws, actions, 0, k - 1);
    if c < k - 1 { RunReachesBands(ws, actions, c, k - 1); }
    var w, a, w' := ws[k - 1], actions[k - 1], ws[k];
    StepKeepsPinned(w, a, w');
  }

  /** In any run, whatever happened before, every pinned AP outranks every unpinned one from a promoting
      connect on, until a re-pinning meets a failing listing or a profile is changed outside. */
  lemma PinnedOutrank(ws: seq<World>, actions: seq<Action>, c: nat, k: nat)
    requires Steps(ws, actions) && c < k < |ws| && PinnedOk(ws[0]) && TameSince(actions, c, k)
    ensures Outranks(ws[k])
  {
    RunReachesBands(ws, actions, c, k);
  }

  /** In any run pinned priorities strictly follow the chosen order. */
  lemma PinnedInOrder(ws: seq<World>, actions: seq<Action>, k: nat)
    requires Steps(ws, actions) && k < |ws| && PinnedOk(ws[0])
    ensures var w := ws[k];
      && (forall p :: p in w.pinned ==> p in w.profiles)
      && forall i, j :: 0 <= i < j < |w.pinned| ==>
           w.profiles[w.pinned[i]].priority > w.profiles[w.pinned[j]].priority
  {
    RunKeepsPinned(ws, actions, 0, k);
  }

  // ---- exactly when pinned APs outrank the others ---------------------------------------------------

  /** Priority of the last pinned name. */
  function LowestPinned(w: World): int {
    PINNED_BASE - (|w.pinned| - 1)
  }

  lemma OutranksBelow(w: World)
    requires PinnedOk(w)
    ensures Outranks(w) <==>
      w.pinned == [] || forall n :: n in w.profiles && n !in w.pinned ==> w.profiles[n].priority < LowestPinned(w)
  {
    if w.pinned != [] {
      var last := w.pinned[|w.pinned| - 1];
      assert last in w.pinned && w.profiles[last].priority == LowestPinned(w);
      assert forall p :: p in w.pinned ==> w.profiles[p].priority >= LowestPinned(w);
    }
  }

  predicate OnlyRepins(actions: seq<Action>, i: nat, k: nat)
    requires k <= |actions|
  {
    forall j :: i <= j < k ==> actions[j].Repin?
  }

  /** The place of `n` in the pinned list. */
  function Place(pinned: seq<string>, n: string): (i: nat)
    requires n in pinned
    ensures i < |pinned| && pinned[i] == n
  {
    if pinned[0] == n then 0 else 1 + Place(pinned[1..], n)
  }

  /** The priority that re-pinnings from world `i` to world `k` leave an unpinned profile with: zero if
      the one that last unpinned it was shown the listing, its old pinned priority if not, and what it
      had in world `i` if it has not been pinned since. */
  function LeftAt(ws: seq<World>, actions: seq<Action>, i: nat, k: nat, n: string): int
    requires i <= k < |ws| && k <= |actions| && OnlyRepins(actions, i, k) && n in ws[i].profiles
    decreases k
  {
    if k == i then ws[i].profiles[n].priority
    else if n in ws[k - 1].pinned then if actions[k - 1].listing then 0 else PINNED_BASE - Place(ws[k - 1].pinned, n)
    else LeftAt(ws, actions, i, k - 1, n)
  }

  lemma LeftByLast(ws: seq<World>, actions: seq<Action>, i: nat, k: nat, n: string)
    requires i < k < |ws| && k <= |actions| && OnlyRepins(actions, i, k) && n in ws[i].profiles
    ensures LeftAt(ws, actions, i, k, n) ==
      if n !in ws[k - 1].pinned then LeftAt(ws, actions, i, k - 1, n)
      else if actions[k - 1].listing then 0 else PINNED_BASE - Place(ws[k - 1].pinned, n)
  {}

  lemma RepinPriority(w: World, w': World, order: seq<Option<string>>, listing: bool, n: string)
    requires PinnedOk(w) && RepinStep(w, w', order, listing)
    ensures w'.profiles.Keys == w.profiles.Keys
    ensures n in w.profiles && n !in w'.pinned ==>
      w'.profiles[n].priority ==
        if n !in w.pinned then w.profiles[n].priority
        else if listing then 0 else PINNED_BASE - Place(w.pinned, n)
  {
    if n in w.pinned { assert w.pinned[Place(w.pinned, n)] == n; }
  }

  lemma {:induction false} UnpinnedPriority(ws: seq<World>, actions: seq<Action>, i: nat, k: nat, n: string)
    requires Steps(ws, actions) && i <= k < |ws| && PinnedOk(ws[i]) && OnlyRepins(actions, i, k)
    ensures ws[k].profiles.Keys == ws[i].profiles.Keys
    ensures n in ws[i].profiles && n !in ws[k].pinned ==>
      ws[k].profiles[n].priority == LeftAt(ws, actions, i, k, n)
    decreases k
  {
    if i < k {
      UnpinnedPriority(ws, actions, i, k - 1, n);
      RunKeepsPinned(ws, actions, i, k - 1);
      var w, a, w' := ws[k - 1], actions[k - 1], ws[k];
      assert Step(w, a, w') && a.Repin?;
      RepinPriority(w, w', a.order, a.listing, n);
      if n in ws[i].profiles { LeftByLast(ws, actions, i, k, n); }
    }
  }

  /** From any world whose pinned names are in their band, for instance after the latest connect or
      outside change, and through any re-pinnings, with the listing failing or not: the pinned APs
      outrank all others if and only if nothing is pinned or every unpinned profile was left below the
      lowest pinned priority. */
  lemma OutranksIff(ws: seq<World>, actions: seq<Action>, i: nat, k: nat)
    requires Steps(ws, actions) && i <= k < |ws| && PinnedOk(ws[i]) && OnlyRepins(actions, i, k)
    ensures Outranks(ws[k]) <==>
      ws[k].pinned == []
      || forall n :: n in ws[i].profiles && n !in ws[k].pinned ==>
           LeftAt(ws, actions, i, k, n) < LowestPinned(ws[k])
  {
    RunKeepsPinned(ws, actions, i, k);
    UnpinnedPriority(ws, actions, i, k, "");
    forall n | n in ws[i].profiles && n !in ws[k].pinned
      ensures ws[k].profiles[n].priority == LeftAt(ws, actions, i, k, n)
    {
      UnpinnedPriority(ws, actions, i, k, n);
    }
    OutranksBelow(ws[k]);
  }

  /** A profile added outside breaks the ranking if and only if something is pinned and the profile is
      not below the lowest pinned one. */
  lemma OutsideOutranksIff(w: World, w': World, n: string, profile: Profile)
    requires Bands(w) && n !in w.profiles && w' == World(w.profiles[n := profile], w.pinned)
    ensures Step(w, Outside, w') && PinnedOk(w')
    ensures Outranks(w') <==> w.pinned == [] || profile.priority < LowestPinned(w)
  {
    OutranksBelow(w');
    assert w'.profiles[n] == profile;
  }

  // ---- runs that break the ranking ----------------------------------------------------------------------

  lemma PinningB() returns (order: seq<Option<string>>)
    ensures Cleaned(order) == ["b"]
  {
    order := [Some("b")];
    assert Strip("b") == "b" && Acceptable("b");
    assert order[..0] == [] && Cleaned([]) == [];
  }

  lemma RepinningB(w: World, w': World, order: seq<Option<string>>)
    requires Cleaned(order) == ["b"] && "b" in w.profiles && w.pinned == [] && w'.pinned == ["b"]
    requires w'.profiles == w.profiles["b" := w.profiles["b"].(autoconnect := true, priority := PINNED_BASE)]
    ensures RepinStep(w, w', order, true)
  {
    assert ["b"][..0] == [] && Saved(["b"], w.profiles.Keys) == ["b"];
    assert IsRaised(w.profiles, w'.profiles, "b", PINNED_BASE);
  }

  lemma RepinningBlind(w: World, order: seq<Option<string>>)
    requires Cleaned(order) == ["b"]
    ensures RepinStep(w, World(w.profiles, []), order, false)
  {
    NoneSaved(["b"]);
  }

  function TwoProfiles(a: int): Profiles {
    map["a" := Profile(0, a, true), "b" := Profile(0, 0, true)]
  }

  /** A profile made outside the console with a high priority: nothing pinned, "a" at 200 or more; pinning
      "b" leaves "a" on top. */
  lemma ForeignProfileOutranks(foreign: int) returns (ws: seq<World>, actions: seq<Action>)
    requires foreign >= PINNED_BASE
    ensures Steps(ws, actions) && |actions| == 1 && Tame(actions[0]) && actions[0].Repin?
    ensures PinnedOk(ws[0]) && ws[0].pinned == []
    ensures "b" in ws[1].pinned && "a" in ws[1].profiles && "a" !in ws[1].pinned && "b" in ws[1].profiles
    ensures ws[1].profiles["a"].priority == foreign >= ws[1].profiles["b"].priority && !Outranks(ws[1])
  {
    var order := PinningB();
    var start := TwoProfiles(foreign);
    var w, w' := World(start, []), World(start["b" := Profile(0, PINNED_BASE, true)], ["b"]);
    RepinningB(w, w', order);
    ws, actions := [w, w'], [Repin(order, true)];
  }

  /** A failing listing: "a" is pinned and everything is in its band; re-pinning to "b" while the listing
      fails, and again when it answers, leaves "a" unpinned and level with the pinned "b". */
  lemma FailedListingStrands() returns (ws: seq<World>, actions: seq<Action>)
    ensures Steps(ws, actions) && |actions| == 2 && Bands(ws[0]) && ws[0].pinned == ["a"]
    ensures actions[0].Repin? && !actions[0].listing && actions[1] == Repin(actions[0].order, true)
    ensures ws[1].pinned == [] && ws[2].pinned == ["b"]
    ensures "a" in ws[2].profiles && "b" in ws[2].profiles
    ensures ws[2].profiles["a"].priority == ws[2].profiles["b"].priority == PINNED_BASE && !Outranks(ws[2])
  {
    var order := PinningB();
    var start := TwoProfiles(PINNED_BASE);
    var w0, w1, w2 := World(start, ["a"]), World(start, []), World(start["b" := Profile(0, PINNED_BASE, true)], ["b"]);
    RepinningBlind(w0, order);
    RepinningB(w1, w2, order);
    Level(w2);
    TwoSteps(w0, Repin(order, false), w1, Repin(order, true), w2);
    ws, actions := [w0, w1, w2], [Repin(order, false), Repin(order, true)];
  }

  lemma TwoSteps(w0: World, a0: Action, w1: World, a1: Action, w2: World)
    requires Step(w0, a0, w1) && Step(w1, a1, w2)
    ensures Steps([w0, w1, w2], [a0, a1])
  {}

  lemma Level(w: World)
    requires w.pinned == ["b"] && "a" in w.profiles && "b" in w.profiles
    requires w.profiles["a"].priority == w.profiles["b"].priority
    ensures !Outranks(w)
  {
    assert "b" in w.pinned && "a" !in w.pinned;
  }

  // ---- nothing pinned is deleted -------------------------------------------------------------------------

  lemma StepSparesPinned(w: World, a: Action, w': World, p: string)
    requires Step(w, a, w') && p in w.pinned && p in w.profiles
    ensures p in w'.profiles
  {
    match a
    case Connect(ssid, keep, promoted) =>
      if promoted {
        var mid, ranking := PromotionIn(w, w', ssid, keep);
        PromotionKeepsPinned(w, mid, w', ranking, ssid, keep, p);
      }
    case Repin(_, _) =>
    case Outside =>
  }

  /** The console never deletes a pinned AP: a saved one stays saved for as long as it is pinned, and
      through the step that unpins it. */
  lemma {:induction false} PinnedNeverDeleted(ws: seq<World>, actions: seq<Action>, i: nat, k: nat, p: string)
    requires Steps(ws, actions) && i <= k < |ws| && p in ws[i].profiles
    requires forall j :: i <= j < k ==> p in ws[j].pinned
    ensures p in ws[k].profiles
    decreases k
  {
    if i < k {
      PinnedNeverDeleted(ws, actions, i, k - 1, p);
      StepSparesPinned(ws[k - 1], actions[k - 1], ws[k], p);
    }
  }

  // ---- what a promotion keeps ----------------------------------------------------------------------------

  function UnpinnedNames(profiles: Profiles, pinned: seq<string>): set<string> {
    set n | n in profiles && n !in pinned
  }

  function RankedNames(ranking: seq<Conn>, k: nat): set<string>
    requires k <= |ranking|
  {
    set i | 0 <= i < k :: ranking[i].name
  }

  lemma OneMoreRanked(ranking: seq<Conn>, k: nat)
    requires k < |ranking| && DistinctNames(ranking)
    ensures ranking[k].name !in RankedNames(ranking, k)
    ensures RankedNames(ranking, k + 1) == RankedNames(ranking, k) + {ranking[k].name}
  {
    var names := RankedNames(ranking, k);
    forall n ensures n in RankedNames(ranking, k + 1) <==> n in names || n == ranking[k].name {
      if n in RankedNames(ranking, k + 1) {
        var i :| 0 <= i < k + 1 && ranking[i].name == n;
      }
    }
  }

  lemma {:induction false} CountRanked(ranking: seq<Conn>, k: nat)
    requires k <= |ranking| && DistinctNames(ranking)
    ensures |RankedNames(ranking, k)| == k
  {
    if k > 0 {
      CountRanked(ranking, k - 1);
      OneMoreRanked(ranking, k - 1);
    }
  }

  /** After a promotion exactly the `keep` best unpinned APs remain (all, if there are fewer). */
  lemma KeptCount(mid: Profiles, pinned: seq<string>, after: Profiles, ranking: seq<Conn>, ssid: string, keep: nat)
    requires Promoted(mid, after, ranking, pinned, ssid, keep, {})
    ensures |UnpinnedNames(after, pinned)| == if keep <= |ranking| then keep else |ranking|
    ensures |UnpinnedNames(mid, pinned)| == |ranking|
  {
    var kept := if keep <= |ranking| then keep else |ranking|;
    CountRanked(ranking, kept);
    CountRanked(ranking, |ranking|);
    forall n ensures n in UnpinnedNames(after, pinned) <==> n in RankedNames(ranking, kept) {
      if n in UnpinnedNames(after, pinned) {
        assert Named(ranking, n);
        var i :| 0 <= i < |ranking| && ranking[i].name == n;
        assert i < kept;
      }
    }
    assert UnpinnedNames(after, pinned) == RankedNames(ranking, kept);
    forall n ensures n in UnpinnedNames(mid, pinned) <==> n in RankedNames(ranking, |ranking|) {
      if n in UnpinnedNames(mid, pinned) { assert Named(ranking, n); }
    }
    assert UnpinnedNames(mid, pinned) == RankedNames(ranking, |ranking|);
  }

  /** The active AP, unless pinned, is kept at the top of the recency band. */
  lemma ActiveOnTop(mid: Profiles, pinned: seq<string>, after: Profiles, ranking: seq<Conn>, ssid: string, keep: nat)
    requires keep > 0 && Promoted(mid, after, ranking, pinned, ssid, keep, {}) && ssid in mid && ssid !in pinned
    ensures ssid in after && after[ssid].priority == PRIORITY_BASE
  {
    assert Named(ranking, ssid);
    var i :| 0 <= i < |ranking| && ranking[i].name == ssid;
    assert i > 0 ==> RecencyLeq(ssid, ranking[0], ranking[i]);
  }

  /** Below it priority follows recency, and a deleted AP was never used more recently than a kept one. */
  lemma PromotionFollowsRecency(mid: Profiles, pinned: seq<string>, after: Profiles, ranking: seq<Conn>,
                                ssid: string, keep: nat, a: string, b: string)
    requires Promoted(mid, after, ranking, pinned, ssid, keep, {})
    requires a in mid && a !in pinned && b in mid && b !in pinned && a != b
    ensures a in after && b in after && (a == ssid || (b != ssid && mid[a].timestamp > mid[b].timestamp)) ==>
      after[a].priority > after[b].priority
    ensures a in after && b !in after ==> b != ssid && (a == ssid || mid[a].timestamp >= mid[b].timestamp)
  {
    assert Named(ranking, a) && Named(ranking, b);
    var i :| 0 <= i < |ranking| && ranking[i].name == a;
    var j :| 0 <= j < |ranking| && ranking[j].name == b;
    assert if i < j then RecencyLeq(ssid, ranking[i], ranking[j]) else RecencyLeq(ssid, ranking[j], ranking[i]);
  }

  /** A successful connect leaves at most `keep` unpinned APs, among them the connected one on top;
      among the others priority follows the time of use, and none that was used more recently than
      one that is kept is deleted. */
  lemma ConnectKeepsBest(w: World, w': World, ssid: string, keep: nat, a: string, b: string)
    requires ConnectStep(w, w', ssid, keep, true)
    ensures |UnpinnedNames(w'.profiles, w'.pinned)| <= keep
    ensures ssid !in w.pinned ==> ssid in w'.profiles && w'.profiles[ssid].priority == PRIORITY_BASE
    ensures a in w.profiles && b in w.profiles && a !in w.pinned && b !in w.pinned && a != ssid && b != ssid ==>
      && (a in w'.profiles && b in w'.profiles && w.profiles[a].timestamp > w.profiles[b].timestamp ==>
            w'.profiles[a].priority > w'.profiles[b].priority)
      && (a in w'.profiles && b !in w'.profiles ==> w.profiles[a].timestamp >= w.profiles[b].timestamp)
  {
    var mid, ranking := PromotionIn(w, w', ssid, keep);
    KeptCount(mid, w.pinned, w'.profiles, ranking, ssid, keep);
    if ssid !in w.pinned { ActiveOnTop(mid, w.pinned, w'.profiles, ranking, ssid, keep); }
    if a in w.profiles && b in w.profiles && a !in w.pinned && b !in w.pinned && a != b {
      PromotionFollowsRecency(mid, w.pinned, w'.profiles, ranking, ssid, keep, a, b);
    }
  }
}
