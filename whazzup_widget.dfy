/** The WhazzUp widget's run: the configuration is settled, the stored feed
    snapshot is used or fetched again, and the roster is built from the
    pilots of the snapshot in use. The stored snapshot and the fetch result
    are inputs, both for the selected network. */
module WhazzUpWidget {
  import opened Common
  import opened Php
  import opened WhazzUpConfig
  import opened WhazzUpLookup
  import opened WhazzUpRoster

  /** The widget's configuration array. */
  datatype WidgetConfig = WidgetConfig(network: PhpValue, fieldName: PhpValue, refresh: PhpValue)

  /** The defaults a widget gets when the page sets nothing. */
  const DefaultConfig := WidgetConfig(PNull, PNull, PInt(180))

  /** A feed snapshot: its age in seconds and its decoded pilots. */
  datatype Snapshot = Snapshot(ageSeconds: nat, pilots: seq<FeedPilot>)

  /** What the widget hands to its view. */
  datatype View = View(pilots: seq<RosterEntry>, network: Network)

  /** The snapshot in use: the stored one while it is fresh enough, else
      whatever the fetch gave (possibly nothing). */
  function SnapshotInUse(stored: Option<Snapshot>, downloaded: Option<Snapshot>, interval: real): (r: Option<Snapshot>)
    ensures stored.Some? && stored.value.ageSeconds as real <= interval ==> r == stored
    ensures stored.None? || stored.value.ageSeconds as real > interval ==> r == downloaded
  {
    var needed := NeedsDownload(stored.Some?, if stored.Some? then stored.value.ageSeconds else 0, interval);
    if needed then downloaded else stored
  }

  /** What the roster loop works with for this configuration. */
  function ContextFor(cfg: WidgetConfig, theme: Theme, db: Directory): Context
  {
    Context(db, NetworkSelection(cfg.network), VaCode(theme))
  }

  /** The relevant network ids for this configuration. */
  function IdsFor(cfg: WidgetConfig, theme: Theme, db: Directory): Option<seq<string>>
  {
    var n := NetworkSelection(cfg.network);
    NetworkUsers(db, FieldName(cfg.fieldName, theme, n), n)
  }

  method Run(cfg: WidgetConfig, theme: Theme, db: Directory, stored: Option<Snapshot>, downloaded: Option<Snapshot>)
    returns (view: View)
    ensures view.network == NetworkSelection(cfg.network)
    ensures var snap := SnapshotInUse(stored, downloaded, RefreshInterval(cfg.refresh));
      view.pilots == if snap.None? then []
        else RosterAsWritten(ContextFor(cfg, theme, db), RelevantPilots(snap.value.pilots, IdsFor(cfg, theme, db))).0
  {
    var network := NetworkSelection(cfg.network);
    var interval := RefreshInterval(cfg.refresh);
    var fieldName := FieldName(cfg.fieldName, theme, network);
    var vaCode := VaCode(theme);
    var whazzup := stored;
    if whazzup.None? || whazzup.value.ageSeconds as real > interval {
      whazzup := downloaded;
    }
    var pilots := [];
    if whazzup.Some? {
      var ids := NetworkUsers(db, fieldName, network);
      pilots := BuildRosterAsWritten(Context(db, network, vaCode), whazzup.value.pilots, ids);
    }
    view := View(pilots, network);
  }

  /** Every entry of the view belongs to a pilot of the snapshot in use
      whose network id is relevant and who flies under an active airline's
      prefix or has a live PIREP; without a snapshot the roster is empty. */
  lemma RunEntriesAreRelevantPilots(cfg: WidgetConfig, theme: Theme, db: Directory,
                                    stored: Option<Snapshot>, downloaded: Option<Snapshot>)
    ensures var snap := SnapshotInUse(stored, downloaded, RefreshInterval(cfg.refresh));
      var ids := IdsFor(cfg, theme, db);
      var ctx := ContextFor(cfg, theme, db);
      snap.Some? ==> forall e :: e in RosterAsWritten(ctx, RelevantPilots(snap.value.pilots, ids)).0 ==>
        exists p :: p in snap.value.pilots && ids.Some? && p.networkId in ids.value
          && Kept(ctx, p) && e.networkId == p.networkId && e.callsign == p.callsign
  {
    var snap := SnapshotInUse(stored, downloaded, RefreshInterval(cfg.refresh));
    if snap.Some? {
      var ctx := ContextFor(cfg, theme, db);
      var ps := RelevantPilots(snap.value.pilots, IdsFor(cfg, theme, db));
      var shown := RosterAsWritten(ctx, ps).0;
      RosterAgreesBesidesVasys(ctx, ps);
      RosterDropRule(ctx, ps);
      forall e | e in shown
        ensures exists p :: p in ps && Kept(ctx, p) && e.networkId == p.networkId && e.callsign == p.callsign
      {
        var i :| 0 <= i < |shown| && shown[i] == e;
        assert WithoutVasys(e) == WithoutVasys(Roster(ctx, ps)[i]);
        assert Roster(ctx, ps)[i] in Roster(ctx, ps);
      }
    }
  }

  /** With the default configuration the widget follows IVAO, refreshes
      every 180 seconds and reads ids from the theme's IVAO field, falling
      back to a field named "IVAO". */
  lemma DefaultsFollowIvao(theme: Theme)
    ensures NetworkSelection(DefaultConfig.network) == Ivao
    ensures RefreshInterval(DefaultConfig.refresh) == DefaultRefresh
    ensures "gen_ivao_field" in theme && theme["gen_ivao_field"] != "" && theme["gen_ivao_field"] != "0" ==>
      FieldName(DefaultConfig.fieldName, theme, Ivao) == PStr(theme["gen_ivao_field"])
    ensures "gen_ivao_field" !in theme ==> FieldName(DefaultConfig.fieldName, theme, Ivao) == PStr("IVAO")
  {
    assert FieldKey(Ivao) == "gen_ivao_field";
  }
}
