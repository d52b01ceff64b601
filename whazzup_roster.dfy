/** The WhazzUp widget's roster: the decoded feed's pilots are narrowed to
    the relevant network ids, and each becomes an entry unless the pilot
    neither flies under an active airline's callsign prefix nor has a live
    PIREP. */
module WhazzUpRoster {
  import opened Common
  import opened Php
  import opened WhazzUpConfig
  import opened WhazzUpLookup

  /** A filed flight plan, with the network's own field names read already
      (aircraft_short/departure/arrival on VATSIM, aircraftId/departureId/
      arrivalId on IVAO). */
  datatype FlightPlan = FlightPlan(aircraft: string, departure: string, arrival: string, remarks: string)

  /** A pilot of the decoded feed: the network id (cid on VATSIM, userId on
      IVAO), the server, the seconds since logon (VATSIM) and the
      connection time in seconds (IVAO). */
  datatype FeedPilot = FeedPilot(
    networkId: string,
    callsign: string,
    server: string,
    plan: Option<FlightPlan>,
    logonSeconds: nat,
    time: nat)

  datatype RosterEntry = RosterEntry(
    userId: Option<int>,
    name: Option<string>,
    namePrivate: Option<string>,
    networkId: string,
    callsign: string,
    server: string,
    onlineMinutes: nat,
    pirep: Option<Pirep>,
    airline: bool,
    flightPlan: string,
    vasysCheck: Option<bool>)

  /** What the roster loop needs besides the pilots. */
  datatype Context = Context(db: Directory, network: Network, vaCode: string)

  const NoPlanText := "No ATC Flight Plan!"

  function PlanText(plan: Option<FlightPlan>): (t: string)
    ensures plan.Some? ==> |t| == |plan.value.aircraft| + |plan.value.departure| + |plan.value.arrival| + 6
  {
    match plan
    case None => NoPlanText
    case Some(fp) => fp.aircraft + " | " + fp.departure + " > " + fp.arrival
  }

  /** The flight-plan column reads "No ATC Flight Plan!" exactly when no
      plan was filed; a filed plan shows its aircraft first, then " | ",
      its departure, " > " and its arrival. */
  lemma PlanTextCases(plan: Option<FlightPlan>)
    ensures PlanText(plan) == NoPlanText <==> plan.None?
    ensures plan.Some? ==> var fp := plan.value; var t := PlanText(plan);
      && t[..|fp.aircraft|] == fp.aircraft
      && t[|fp.aircraft|..|fp.aircraft| + 3] == " | "
      && t[|fp.aircraft| + 3..|fp.aircraft| + 3 + |fp.departure|] == fp.departure
      && t[|fp.aircraft| + 3 + |fp.departure|..|fp.aircraft| + 6 + |fp.departure|] == " > "
      && t[|t| - |fp.arrival|..] == fp.arrival
      && |t| == |fp.aircraft| + |fp.departure| + |fp.arrival| + 6
  {
    if plan.Some? {
      var fp := plan.value;
      var t := PlanText(plan);
      var k := |fp.aircraft|;
      assert t[k + 1] == '|';
      assert forall i :: 0 <= i < |NoPlanText| ==> NoPlanText[i] != '|';
      assert t != NoPlanText by {
        if |t| == |NoPlanText| {
          assert t[k + 1] != NoPlanText[k + 1];
        }
      }
    }
  }

  /** The pilots whose network id is relevant, in feed order; none when
      there is no relevant id. */
  function RelevantPilots(feed: seq<FeedPilot>, ids: Option<seq<string>>): (r: seq<FeedPilot>)
    ensures |r| <= |feed|
    ensures forall p :: p in r <==> p in feed && ids.Some? && p.networkId in ids.value
    decreases |feed|
  {
    if feed == [] then []
    else
      var init, p := DropLast(feed), Last(feed);
      assert feed == init + [p];
      RelevantPilots(init, ids) + if ids.Some? && p.networkId in ids.value then [p] else []
  }

  /** A pilot is relevant when there are relevant ids and its network id is
      one of them. */
  function Relevance(ids: Option<seq<string>>): FeedPilot -> bool
  {
    (p: FeedPilot) => ids.Some? && p.networkId in ids.value
  }

  /** RelevantPilots is the order-keeping filter: its k-th pilot is the
      feed's pilot at the k-th relevant position, so the pilots keep their
      feed order and a repeated pilot keeps every copy. */
  lemma RelevantPilotsInOrder(feed: seq<FeedPilot>, ids: Option<seq<string>>)
    ensures var pos := Positions(feed, Relevance(ids));
      && |RelevantPilots(feed, ids)| == |pos|
      && forall k :: 0 <= k < |pos| ==> RelevantPilots(feed, ids)[k] == feed[pos[k]]
  {
    RelevantCount(feed, ids);
    forall k | 0 <= k < |Positions(feed, Relevance(ids))|
      ensures RelevantPilots(feed, ids)[k] == feed[Positions(feed, Relevance(ids))[k]]
    {
      RelevantAt(feed, ids, k);
    }
  }

  lemma RelevanceSnoc(feed: seq<FeedPilot>, ids: Option<seq<string>>)
    requires feed != []
    ensures Positions(feed, Relevance(ids)) == Positions(DropLast(feed), Relevance(ids)) +
      if ids.Some? && Last(feed).networkId in ids.value then [|feed| - 1] else []
  {
    PositionsSnoc(feed, Relevance(ids));
  }

  lemma {:induction false} RelevantCount(feed: seq<FeedPilot>, ids: Option<seq<string>>)
    ensures |RelevantPilots(feed, ids)| == |Positions(feed, Relevance(ids))|
    decreases |feed|
  {
    if feed != [] {
      RelevantCount(DropLast(feed), ids);
      RelevanceSnoc(feed, ids);
    }
  }

  lemma {:induction false} RelevantAt(feed: seq<FeedPilot>, ids: Option<seq<string>>, k: nat)
    requires k < |Positions(feed, Relevance(ids))|
    ensures k < |RelevantPilots(feed, ids)|
    ensures RelevantPilots(feed, ids)[k] == feed[Positions(feed, Relevance(ids))[k]]
    decreases |feed|
  {
    var init := DropLast(feed);
    RelevanceSnoc(feed, ids);
    RelevantCount(init, ids);
    if k < |Positions(init, Relevance(ids))| {
      RelevantAt(init, ids, k);
      assert init[Positions(init, Relevance(ids))[k]] == feed[Positions(init, Relevance(ids))[k]];
    }
  }

  /** The user found for a pilot, and the user's live PIREP (the PIREPs
      without a user when no user was found). */
  function PilotUser(ctx: Context, p: FeedPilot): Option<User>
  {
    FindUser(ctx.db, p.networkId, ctx.network)
  }

  function PilotPirep(ctx: Context, p: FeedPilot): Option<Pirep>
  {
    var user := PilotUser(ctx, p);
    FindActivePirep(ctx.db.pireps, if user.Some? then Some(user.value.id) else None)
  }

  /** The pilot flies under an active airline: the first three characters
      of the callsign are one of their ICAO codes. */
  predicate Affiliated(ctx: Context, p: FeedPilot)
  {
    Substr(p.callsign, 0, 3) in AirlineIcaos(ctx.db.airlines)
  }

  /** The pilot gets an entry. */
  predicate Kept(ctx: Context, p: FeedPilot)
    ensures Kept(ctx, p) <==>
      (exists a :: a in ctx.db.airlines && a.active && a.icao == Substr(p.callsign, 0, 3))
      || (exists r :: r in ctx.db.pireps && r.inProgress
            && r.userId == (if PilotUser(ctx, p).Some? then Some(PilotUser(ctx, p).value.id) else None))
  {
    Affiliated(ctx, p) || PilotPirep(ctx, p).Some?
  }

  /** The VA-system check after visiting the pilot: an IVAO pilot with a
      flight plan sets it to whether the remarks hold the airline's code;
      every other pilot leaves it as it was. */
  function VasysAfter(ctx: Context, p: FeedPilot, before: Option<bool>): Option<bool>
  {
    if ctx.network == Ivao && p.plan.Some? then Some(Contains(p.plan.value.remarks, ctx.vaCode)) else before
  }

  /** The entry for a pilot, given the VA-system check in force. */
  function EntryOf(ctx: Context, p: FeedPilot, vasys: Option<bool>): (e: RosterEntry)
    ensures e.networkId == p.networkId && e.callsign == p.callsign && e.vasysCheck == vasys
    ensures e.userId.Some? ==> exists u :: u in ctx.db.users && u.id == e.userId.value && e.name == Some(u.name)
    ensures e.pirep.Some? ==> e.pirep.value in ctx.db.pireps && e.pirep.value.inProgress
    ensures e.flightPlan == NoPlanText <==> p.plan.None?
  {
    var user := PilotUser(ctx, p);
    PlanTextCases(p.plan);
    RosterEntry(
      if user.Some? then Some(user.value.id) else None,
      if user.Some? then Some(user.value.name) else None,
      if user.Some? then Some(user.value.namePrivate) else None,
      p.networkId,
      p.callsign,
      p.server,
      OnlineMinutes(ctx.network, p.logonSeconds, p.time),
      PilotPirep(ctx, p),
      Affiliated(ctx, p),
      PlanText(p.plan),
      vasys)
  }

  /** The roster loop as written: the entries and the VA-system check after
      the given pilots, the check carried from one pilot to the next. */
  function RosterAsWritten(ctx: Context, ps: seq<FeedPilot>): (r: (seq<RosterEntry>, Option<bool>))
    ensures |r.0| <= |ps|
    ensures r.1.Some? <==> ctx.network == Ivao && exists p :: p in ps && p.plan.Some?
    decreases |ps|
  {
    if ps == [] then ([], None)
    else
      var (entries, before) := RosterAsWritten(ctx, DropLast(ps));
      var p := Last(ps);
      assert ps == DropLast(ps) + [p];
      var after := VasysAfter(ctx, p, before);
      (entries + if Kept(ctx, p) then [EntryOf(ctx, p, after)] else [], after)
  }

  /** The roster with the check taken from each pilot's own flight plan. */
  function Roster(ctx: Context, ps: seq<FeedPilot>): (r: seq<RosterEntry>)
    ensures |r| <= |ps|
    decreases |ps|
  {
    if ps == [] then []
    else
      var p := Last(ps);
      Roster(ctx, DropLast(ps)) + if Kept(ctx, p) then [EntryOf(ctx, p, VasysAfter(ctx, p, None))] else []
  }

  /** The pilots that get an entry. */
  function Keeps(ctx: Context): FeedPilot -> bool
  {
    (p: FeedPilot) => Kept(ctx, p)
  }

  /** Each pilot yields at most one entry, in order: the k-th entry is the
      one of the k-th kept pilot, with that pilot's own check, and every
      kept pilot's position is among them. */
  lemma KeptPositionsSnoc(ctx: Context, ps: seq<FeedPilot>)
    requires ps != []
    ensures Positions(ps, Keeps(ctx)) == Positions(DropLast(ps), Keeps(ctx)) + if Kept(ctx, Last(ps)) then [|ps| - 1] else []
  {
    PositionsSnoc(ps, Keeps(ctx));
  }

  lemma RosterInOrder(ctx: Context, ps: seq<FeedPilot>)
    ensures var pos := Positions(ps, Keeps(ctx));
      && |Roster(ctx, ps)| == |pos|
      && forall k :: 0 <= k < |pos| ==>
        Roster(ctx, ps)[k] == EntryOf(ctx, ps[pos[k]], VasysAfter(ctx, ps[pos[k]], None))
  {
    RosterCount(ctx, ps);
    forall k | 0 <= k < |Positions(ps, Keeps(ctx))|
      ensures var i := Positions(ps, Keeps(ctx))[k];
        Roster(ctx, ps)[k] == EntryOf(ctx, ps[i], VasysAfter(ctx, ps[i], None))
    {
      RosterAt(ctx, ps, k);
    }
  }

  lemma {:induction false} RosterCount(ctx: Context, ps: seq<FeedPilot>)
    ensures |Roster(ctx, ps)| == |Positions(ps, Keeps(ctx))|
    decreases |ps|
  {
    if ps != [] {
      RosterCount(ctx, DropLast(ps));
      KeptPositionsSnoc(ctx, ps);
    }
  }

  lemma {:induction false} RosterAt(ctx: Context, ps: seq<FeedPilot>, k: nat)
    requires k < |Positions(ps, Keeps(ctx))|
    ensures k < |Roster(ctx, ps)|
    ensures var i := Positions(ps, Keeps(ctx))[k];
      Roster(ctx, ps)[k] == EntryOf(ctx, ps[i], VasysAfter(ctx, ps[i], None))
    decreases |ps|
  {
    var init := DropLast(ps);
    KeptPositionsSnoc(ctx, ps);
    RosterCount(ctx, init);
    if k < |Positions(init, Keeps(ctx))| {
      RosterAt(ctx, init, k);
      assert init[Positions(init, Keeps(ctx))[k]] == ps[Positions(init, Keeps(ctx))[k]];
    }
  }

  lemma RosterStep(ctx: Context, ps: seq<FeedPilot>, i: nat)
    requires i < |ps|
    ensures Roster(ctx, ps[..i + 1]) ==
      Roster(ctx, ps[..i]) + if Kept(ctx, ps[i]) then [EntryOf(ctx, ps[i], VasysAfter(ctx, ps[i], None))] else []
  {
    assert ps[..i + 1] == ps[..i] + [ps[i]];
    assert DropLast(ps[..i + 1]) == ps[..i] && Last(ps[..i + 1]) == ps[i];
  }

  /** The k-th entry of the loop as written is the one of the k-th kept
      pilot, with the check left by the pilots up to and including it. */
  lemma RosterAsWrittenInOrder(ctx: Context, ps: seq<FeedPilot>)
    ensures var pos := Positions(ps, Keeps(ctx));
      && |RosterAsWritten(ctx, ps).0| == |pos|
      && forall k :: 0 <= k < |pos| ==>
        RosterAsWritten(ctx, ps).0[k] == EntryOf(ctx, ps[pos[k]], RosterAsWritten(ctx, ps[..pos[k] + 1]).1)
  {
    AsWrittenCount(ctx, ps);
    var pos := Positions(ps, Keeps(ctx));
    forall k | 0 <= k < |pos|
      ensures RosterAsWritten(ctx, ps).0[k] == EntryOf(ctx, ps[pos[k]], RosterAsWritten(ctx, ps[..pos[k] + 1]).1)
    {
      AsWrittenEntry(ctx, ps, k);
    }
  }

  lemma {:induction false} AsWrittenEntry(ctx: Context, ps: seq<FeedPilot>, k: nat)
    requires k < |Positions(ps, Keeps(ctx))|
    ensures var pos := Positions(ps, Keeps(ctx));
      k < |RosterAsWritten(ctx, ps).0| &&
      RosterAsWritten(ctx, ps).0[k] == EntryOf(ctx, ps[pos[k]], RosterAsWritten(ctx, ps[..pos[k] + 1]).1)
    decreases |ps|
  {
    var init := DropLast(ps);
    var pos := Positions(init, Keeps(ctx));
    KeptPositionsSnoc(ctx, ps);
    AsWrittenCount(ctx, init);
    if k < |pos| {
      AsWrittenEntry(ctx, init, k);
      AsWrittenKeepsEarlier(ctx, ps, k, pos[k]);
      assert Positions(ps, Keeps(ctx))[k] == pos[k];
    } else {
      AsWrittenLastEntry(ctx, ps);
      assert Positions(ps, Keeps(ctx))[k] == |ps| - 1;
    }
  }

  /** The loop as written yields one entry per kept pilot. */
  lemma {:induction false} AsWrittenCount(ctx: Context, ps: seq<FeedPilot>)
    ensures |RosterAsWritten(ctx, ps).0| == |Positions(ps, Keeps(ctx))|
    decreases |ps|
  {
    if ps != [] {
      AsWrittenCount(ctx, DropLast(ps));
      AsWrittenSnoc(ctx, ps);
      KeptPositionsSnoc(ctx, ps);
    }
  }

  lemma AsWrittenLastEntry(ctx: Context, ps: seq<FeedPilot>)
    requires ps != [] && Kept(ctx, Last(ps))
    ensures var k := |RosterAsWritten(ctx, DropLast(ps)).0|;
      k < |RosterAsWritten(ctx, ps).0| &&
      RosterAsWritten(ctx, ps).0[k] == EntryOf(ctx, ps[|ps| - 1], RosterAsWritten(ctx, ps[..|ps|]).1)
  {
    AsWrittenSnoc(ctx, ps);
    assert ps[..|ps|] == ps;
  }

  lemma AsWrittenKeepsEarlier(ctx: Context, ps: seq<FeedPilot>, k: nat, j: nat)
    requires j < |ps| - 1 && k < |RosterAsWritten(ctx, DropLast(ps)).0|
    requires RosterAsWritten(ctx, DropLast(ps)).0[k] == EntryOf(ctx, DropLast(ps)[j], RosterAsWritten(ctx, DropLast(ps)[..j + 1]).1)
    ensures RosterAsWritten(ctx, ps).0[k] == EntryOf(ctx, ps[j], RosterAsWritten(ctx, ps[..j + 1]).1)
  {
    AsWrittenSnoc(ctx, ps);
    assert DropLast(ps)[j] == ps[j] && DropLast(ps)[..j + 1] == ps[..j + 1];
  }

  lemma AsWrittenSnoc(ctx: Context, ps: seq<FeedPilot>)
    requires ps != []
    ensures var p := Last(ps);
      RosterAsWritten(ctx, ps).0 == RosterAsWritten(ctx, DropLast(ps)).0 +
        if Kept(ctx, p) then [EntryOf(ctx, p, RosterAsWritten(ctx, ps).1)] else []
  {
  }

  lemma RosterAsWrittenStep(ctx: Context, ps: seq<FeedPilot>, i: nat)
    requires i < |ps|
    ensures RosterAsWritten(ctx, ps[..i + 1]).1 == VasysAfter(ctx, ps[i], RosterAsWritten(ctx, ps[..i]).1)
    ensures RosterAsWritten(ctx, ps[..i + 1]).0 == RosterAsWritten(ctx, ps[..i]).0 +
      if Kept(ctx, ps[i]) then [EntryOf(ctx, ps[i], RosterAsWritten(ctx, ps[..i + 1]).1)] else []
  {
    assert ps[..i + 1] == ps[..i] + [ps[i]];
    assert DropLast(ps[..i + 1]) == ps[..i] && Last(ps[..i + 1]) == ps[i];
  }

  /** One pass of the roster loop's body: the flight-plan text and the
      VA-system check the pilot leaves, and the pilot's entry unless the
      pilot neither flies under an active airline's prefix nor has a live
      PIREP. */
  method VisitPilot(ctx: Context, p: FeedPilot, vasys: Option<bool>)
    returns (entry: Option<RosterEntry>, vasys': Option<bool>)
    ensures vasys' == VasysAfter(ctx, p, vasys)
    ensures entry == if Kept(ctx, p) then Some(EntryOf(ctx, p, vasys')) else None
  {
    vasys' := vasys;
    var user := FindUser(ctx.db, p.networkId, ctx.network);
    var pirep := FindActivePirep(ctx.db.pireps, if user.Some? then Some(user.value.id) else None);
    var icao := Substr(p.callsign, 0, 3);
    var fp: string;
    if p.plan.Some? && ctx.network == Vatsim {
      fp := p.plan.value.aircraft + " | " + p.plan.value.departure + " > " + p.plan.value.arrival;
    } else if p.plan.Some? {
      fp := p.plan.value.aircraft + " | " + p.plan.value.departure + " > " + p.plan.value.arrival;
      vasys' := Some(Contains(p.plan.value.remarks, ctx.vaCode));
    } else {
      fp := NoPlanText;
    }
    var airline := icao in AirlineIcaos(ctx.db.airlines);
    assert fp == PlanText(p.plan);
    assert airline == Affiliated(ctx, p) && pirep == PilotPirep(ctx, p);
    if !airline && pirep.None? {
      return None, vasys';
    }
    entry := Some(RosterEntry(
      if user.Some? then Some(user.value.id) else None,
      if user.Some? then Some(user.value.name) else None,
      if user.Some? then Some(user.value.namePrivate) else None,
      p.networkId,
      p.callsign,
      p.server,
      OnlineMinutes(ctx.network, p.logonSeconds, p.time),
      pirep,
      airline,
      fp,
      vasys'));
  }

  /** The widget's loop over the relevant pilots: the VA-system check is
      set by an IVAO pilot with a flight plan and otherwise keeps the value
      an earlier pilot left. */
  method BuildRosterAsWritten(ctx: Context, feed: seq<FeedPilot>, ids: Option<seq<string>>)
    returns (pilots: seq<RosterEntry>)
    ensures pilots == RosterAsWritten(ctx, RelevantPilots(feed, ids)).0
  {
    var online := RelevantPilots(feed, ids);
    pilots := [];
    var vasys: Option<bool> := None;
    var i := 0;
    while i < |online|
      invariant 0 <= i <= |online|
      invariant pilots == RosterAsWritten(ctx, online[..i]).0
      invariant vasys == RosterAsWritten(ctx, online[..i]).1
    {
      RosterAsWrittenStep(ctx, online, i);
      var entry;
      entry, vasys := VisitPilot(ctx, online[i], vasys);
      if entry.Some? {
        pilots := pilots + [entry.value];
      }
      i := i + 1;
    }
    assert online[..i] == online;
  }

  /** The loop over the relevant pilots. The VA-system check starts unset
      for every pilot, so an entry only ever carries its own pilot's check
      (the widget carries it over from earlier pilots; see RosterAsWritten
      and VasysLeaksToNextPilot). */
  method BuildRoster(ctx: Context, feed: seq<FeedPilot>, ids: Option<seq<string>>)
    returns (pilots: seq<RosterEntry>)
    ensures pilots == Roster(ctx, RelevantPilots(feed, ids))
  {
    var online := RelevantPilots(feed, ids);
    pilots := [];
    var i := 0;
    while i < |online|
      invariant 0 <= i <= |online|
      invariant pilots == Roster(ctx, online[..i])
    {
      RosterStep(ctx, online, i);
      var entry, _ := VisitPilot(ctx, online[i], None);
      if entry.Some? {
        pilots := pilots + [entry.value];
      }
      i := i + 1;
    }
    assert online[..i] == online;
  }

  /** Apart from the VA-system check, the loop as written and the corrected
      roster agree entry for entry. */
  function WithoutVasys(e: RosterEntry): RosterEntry
  {
    e.(vasysCheck := None)
  }

  lemma {:induction false} RosterAgreesBesidesVasys(ctx: Context, ps: seq<FeedPilot>)
    ensures |RosterAsWritten(ctx, ps).0| == |Roster(ctx, ps)|
    ensures forall i :: 0 <= i < |Roster(ctx, ps)| ==>
      WithoutVasys(RosterAsWritten(ctx, ps).0[i]) == WithoutVasys(Roster(ctx, ps)[i])
    decreases |ps|
  {
    if ps != [] {
      RosterAgreesBesidesVasys(ctx, DropLast(ps));
    }
  }

  /** The drop rule: a relevant pilot has an entry, in feed order, exactly
      when it flies under an active airline's prefix or has a live PIREP;
      each entry belongs to one such pilot. */
  lemma {:induction false} RosterDropRule(ctx: Context, ps: seq<FeedPilot>)
    ensures forall e :: e in Roster(ctx, ps) ==>
      exists p :: p in ps && Kept(ctx, p) && e == EntryOf(ctx, p, VasysAfter(ctx, p, None))
    ensures forall p :: p in ps && Kept(ctx, p) ==> EntryOf(ctx, p, VasysAfter(ctx, p, None)) in Roster(ctx, ps)
    decreases |ps|
  {
    if ps != [] {
      var init, p := DropLast(ps), Last(ps);
      assert ps == init + [p];
      RosterDropRule(ctx, init);
    }
  }

  /** In the corrected roster the check is set exactly for IVAO pilots with
      a flight plan, and then says whether their own remarks hold the
      airline's code. */
  lemma {:induction false} RosterVasysFromOwnPlan(ctx: Context, ps: seq<FeedPilot>)
    ensures forall e :: e in Roster(ctx, ps) ==>
      exists p :: p in ps && e.networkId == p.networkId && e.callsign == p.callsign
        && (e.vasysCheck.Some? <==> ctx.network == Ivao && p.plan.Some?)
        && (e.vasysCheck.Some? ==> e.vasysCheck.value == Contains(p.plan.value.remarks, ctx.vaCode))
    decreases |ps|
  {
    if ps != [] {
      var init, p := DropLast(ps), Last(ps);
      assert ps == init + [p];
      RosterVasysFromOwnPlan(ctx, init);
    }
  }

  /** The loop as written lets a pilot inherit the check: an IVAO pilot who
      is dropped but filed remarks with the airline's code, followed by an
      affiliated pilot without a flight plan, gives that second pilot's
      entry the check "true", where the corrected roster leaves it unset. */
  lemma VasysLeaksToNextPilot()
    ensures var ctx := Context(Directory([], [], [], [], [Airline("ABC", true)]), Ivao, "DSPHBSC");
      var dropped := FeedPilot("1", "XYZ1", "S", Some(FlightPlan("B738", "EDDF", "EGLL", "DSPHBSC")), 0, 60);
      var next := FeedPilot("2", "ABC1", "S", None, 0, 60);
      && |RosterAsWritten(ctx, [dropped, next]).0| == 1
      && RosterAsWritten(ctx, [dropped, next]).0[0].vasysCheck == Some(true)
      && |Roster(ctx, [dropped, next])| == 1
      && Roster(ctx, [dropped, next])[0].vasysCheck == None
  {
    var ctx := Context(Directory([], [], [], [], [Airline("ABC", true)]), Ivao, "DSPHBSC");
    var dropped := FeedPilot("1", "XYZ1", "S", Some(FlightPlan("B738", "EDDF", "EGLL", "DSPHBSC")), 0, 60);
    var next := FeedPilot("2", "ABC1", "S", None, 0, 60);
    var ps := [dropped, next];
    assert DropLast(ps) == [dropped] && Last(ps) == next;
    assert DropLast([dropped]) == [] && Last([dropped]) == dropped;
    assert AirlineIcaos(ctx.db.airlines) == ["ABC"];
    assert Substr(dropped.callsign, 0, 3) == "XYZ";
    assert Substr(next.callsign, 0, 3) == "ABC";
    assert !Affiliated(ctx, dropped) && Affiliated(ctx, next);
    assert PilotPirep(ctx, dropped).None?;
    assert OccursAt("DSPHBSC", "DSPHBSC", 0);
    assert VasysAfter(ctx, dropped, None) == Some(true);
    assert RosterAsWritten(ctx, []) == ([], None);
    assert !Kept(ctx, dropped);
    assert RosterAsWritten(ctx, [dropped]) == ([] + [], Some(true));
    assert RosterAsWritten(ctx, ps).0 == [EntryOf(ctx, next, Some(true))];
    assert Roster(ctx, [dropped]) == [];
    assert Roster(ctx, ps) == [EntryOf(ctx, next, None)];
  }
}
