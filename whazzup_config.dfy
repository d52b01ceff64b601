/** The WhazzUp widget's configuration defaults: the network, the refresh
    interval, the custom profile field that holds a pilot's network id, the
    virtual-airline code looked for in IVAO flight plans, and the rule that
    decides when the stored feed snapshot is fetched again. */
module WhazzUpConfig {
  import opened Php

  datatype Network = Ivao | Vatsim

  function NetworkName(n: Network): string
  {
    match n
    case Ivao => "IVAO"
    case Vatsim => "VATSIM"
  }

  /** The configured network when it is exactly one of the two names,
      otherwise IVAO. */
  function NetworkSelection(cfg: PhpValue): (n: Network)
    ensures cfg == PStr("VATSIM") <==> n == Vatsim
    ensures cfg != PStr("VATSIM") <==> n == Ivao
  {
    if cfg == PStr("IVAO") || cfg == PStr("VATSIM") then
      if cfg == PStr("VATSIM") then Vatsim else Ivao
    else Ivao
  }

  /** Naming a network in the configuration selects that network; a missing
      value, another spelling or a non-string selects IVAO. */
  lemma NetworkSelectionCases(n: Network)
    ensures NetworkSelection(PStr(NetworkName(n))) == n
    ensures NetworkSelection(PNull) == Ivao
    ensures NetworkSelection(PStr("vatsim")) == Ivao
    ensures NetworkSelection(PInt(1)) == Ivao
  {
    assert PStr("vatsim") != PStr("VATSIM") by {
      assert "vatsim"[0] != "VATSIM"[0];
    }
  }

  /** The default refresh interval, in seconds. */
  const DefaultRefresh: real := 180.0

  /** The configured refresh interval when it is numeric and greater than
      15, otherwise the default. */
  function RefreshInterval(cfg: PhpValue): (r: real)
    ensures IsNumeric(cfg) && NumericValue(cfg) > 15.0 ==> r == NumericValue(cfg)
    ensures !(IsNumeric(cfg) && NumericValue(cfg) > 15.0) ==> r == DefaultRefresh
  {
    if IsNumeric(cfg) && NumericValue(cfg) > 15.0 then NumericValue(cfg) else DefaultRefresh
  }

  /** The interval is never 15 seconds or less. */
  lemma RefreshIntervalBound(cfg: PhpValue)
    ensures RefreshInterval(cfg) > 15.0
    ensures RefreshInterval(PInt(15)) == DefaultRefresh
    ensures RefreshInterval(PInt(16)) == 16.0
    ensures RefreshInterval(PStr("abc")) == DefaultRefresh
  {
    assert !IsNumericString("abc") by {
      assert IndexOf("abc", '.') == 3;
      assert !IsDigit("abc"[0]);
    }
  }

  /** PHP's empty() on a scalar: exactly the values that convert to false. */
  predicate Empty(v: PhpValue)
  {
    !Truthy(v)
  }

  /** The theme settings, by key; a missing key reads as null. */
  type Theme = map<string, string>

  function ThemeValue(theme: Theme, key: string): PhpValue
  {
    if key in theme then PStr(theme[key]) else PNull
  }

  /** The theme key naming the profile field for a network. */
  function FieldKey(n: Network): string
  {
    "gen_" + (match n case Ivao => "ivao" case Vatsim => "vatsim") + "_field"
  }

  /** The name of the custom profile field holding network ids: the
      configured name when it is non-empty; else the theme's setting for the
      network when that is non-empty; else the configured value if one was
      given at all (so an empty string stays), and "IVAO" when none was. */
  function FieldName(cfg: PhpValue, theme: Theme, n: Network): (r: PhpValue)
    ensures !Empty(cfg) ==> r == cfg
    ensures Empty(cfg) && !Empty(ThemeValue(theme, FieldKey(n))) ==> r == ThemeValue(theme, FieldKey(n))
    ensures Empty(cfg) && Empty(ThemeValue(theme, FieldKey(n))) ==> r == (if cfg == PNull then PStr("IVAO") else cfg)
    ensures r != PNull
  {
    var fromTheme := if Empty(cfg) then ThemeValue(theme, FieldKey(n)) else PNull;
    if !Empty(fromTheme) then fromTheme
    else if cfg != PNull then cfg
    else PStr("IVAO")
  }

  /** The code an IVAO flight plan's remarks carry when flown for this
      airline: "IVAOVA/" and the theme's IVAO ICAO when that is filled,
      otherwise "DSPHBSC". */
  function VaCode(theme: Theme): (r: string)
    ensures "gen_ivao_icao" in theme && !Blank(theme["gen_ivao_icao"]) ==>
      r == "IVAOVA/" + theme["gen_ivao_icao"]
    ensures !("gen_ivao_icao" in theme && !Blank(theme["gen_ivao_icao"])) ==> r == "DSPHBSC"
  {
    if "gen_ivao_icao" in theme && !Blank(theme["gen_ivao_icao"]) then "IVAOVA/" + theme["gen_ivao_icao"]
    else "DSPHBSC"
  }

  /** The stored snapshot is fetched again when there is none or when it is
      strictly older than the refresh interval. */
  function NeedsDownload(stored: bool, ageSeconds: nat, interval: real): (b: bool)
    ensures !stored ==> b
    ensures stored ==> (b <==> ageSeconds as real > interval)
  {
    !stored || ageSeconds as real > interval
  }

  /** A snapshot that needs fetching at some age needs it at every later
      age; a snapshot within the interval, the boundary included, is used
      as it is. */
  lemma StalenessMonotone(ageSeconds: nat, later: nat, interval: real)
    requires ageSeconds <= later
    ensures NeedsDownload(true, ageSeconds, interval) ==> NeedsDownload(true, later, interval)
    ensures ageSeconds as real <= interval ==> !NeedsDownload(true, ageSeconds, interval)
    ensures NeedsDownload(false, ageSeconds, interval)
  {
  }

  /** The online time shown for a pilot, in minutes: whole minutes since
      logon on VATSIM, the connection time in seconds rounded up to minutes
      on IVAO. */
  function OnlineMinutes(n: Network, logonSeconds: nat, time: nat): (m: nat)
    ensures n == Vatsim ==> 60 * m <= logonSeconds < 60 * (m + 1)
    ensures n == Ivao ==> 60 * m >= time && (m > 0 ==> 60 * (m - 1) < time)
  {
    match n
    case Vatsim => logonSeconds / 60
    case Ivao => (time + 59) / 60
  }

  /** VATSIM rounds down and IVAO rounds up: 61 seconds are 1 minute on
      VATSIM and 2 on IVAO, and 45 whole minutes stay 45. */
  lemma OnlineMinutesRounding(logonSeconds: nat, time: nat)
    ensures var m := OnlineMinutes(Vatsim, logonSeconds, time);
      60 * m <= logonSeconds < 60 * (m + 1)
    ensures var m := OnlineMinutes(Ivao, logonSeconds, time);
      60 * m >= time && (m > 0 ==> 60 * (m - 1) < time)
    ensures OnlineMinutes(Ivao, 0, 61) == 2
    ensures OnlineMinutes(Vatsim, 61, 0) == 1
    ensures OnlineMinutes(Ivao, 0, 45 * 60) == 45
  {
  }
}
