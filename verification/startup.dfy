/**
 The relay's start-up configuration: the settings as read from the
 environment, the credential guard that stops the process, and the
 configuration the handler runs with.
 */
module Startup {
  import Config

  /** The settings after environment lookup and number parsing: `API_ID` as an
      integer, `DELAY` as a number of seconds, the rest as strings. */
  datatype Settings = Settings(
    apiId: int,
    apiHash: string,
    sessionName: string,
    sources: string,
    targets: string,
    delay: real)

  /** The configuration the relay runs with: the channel lists are parsed. */
  datatype RelayConfig = RelayConfig(
    apiId: int,
    apiHash: string,
    sessionName: string,
    sources: seq<string>,
    targets: seq<string>,
    delay: real)

  /** Either the process stops with the credentials error, or it starts. */
  datatype Launch = Abort | Start(config: RelayConfig)

  /** Credentials the guard lets through. */
  predicate HasCredentials(apiId: int, apiHash: string)
  {
    apiId != 0 && apiHash != []
  }

  /** A configuration start-up can produce: credentials set, and channel
      lists of clean names. */
  predicate Valid(c: RelayConfig)
  {
    HasCredentials(c.apiId, c.apiHash) && Config.AllClean(c.sources) && Config.AllClean(c.targets)
  }

  /** Start-up: parse both channel lists and stop when `API_ID` is 0 or
      `API_HASH` is empty. */
  function Configure(s: Settings): (r: Launch)
    ensures r.Abort? <==> s.apiId == 0 || s.apiHash == []
    ensures r.Start? ==> Valid(r.config)
    ensures r.Start? ==> r.config.apiId == s.apiId && r.config.apiHash == s.apiHash
                         && r.config.sessionName == s.sessionName && r.config.delay == s.delay
    ensures r.Start? ==> r.config.sources == Config.ParseList(s.sources)
                         && r.config.targets == Config.ParseList(s.targets)
  {
    var sources := Config.ParseList(s.sources);
    var targets := Config.ParseList(s.targets);
    if s.apiId == 0 || s.apiHash == [] then Abort
    else Start(RelayConfig(s.apiId, s.apiHash, s.sessionName, sources, targets, s.delay))
  }

  /** The settings that describe a configuration: the channel lists written
      out comma-separated. */
  function Render(c: RelayConfig): Settings
  {
    Settings(c.apiId, c.apiHash, c.sessionName, Config.Join(c.sources), Config.Join(c.targets), c.delay)
  }

  /** Every configuration start-up can produce is produced from its own
      rendering: start-up loses nothing of a valid configuration. */
  lemma ConfigureRender(c: RelayConfig)
    requires Valid(c)
    ensures Configure(Render(c)) == Start(c)
  {
    Config.ParseJoin(c.sources);
    Config.ParseJoin(c.targets);
  }
}
