/** `write()`: the generated engine script and the file-system effects of one
    generation, returned as data.

    The script is modelled as a list of `Line`s, one per emitted statement:
    each fixed statement is named, and every line that depends on the station
    is a constructor holding the values it is built from. `Render` turns a line
    into its text, and the written file is the rendered lines joined by newlines. */
module Script {
  import opened Text
  import opened StationModel
  import Ports
  import Commands
  import Playlists
  import Outputs
  import Sanitize

  // ---------------------------------------------------------------------------
  // Script lines
  // ---------------------------------------------------------------------------

  datatype Line =
    | Fixed(block: FixedBlock)
    | Custom(text: string)
    | PidFileSetting(configDir: string)
    | LogFileSetting(configDir: string)
    | StdoutSetting(insideDocker: bool)
    | TelnetBindSetting(insideDocker: bool)
    | TelnetPortSetting(port: int)
    | NextSongRequest(insideDocker: bool, apiKey: string, stationId: int)
    | DjAuthRequest(insideDocker: bool, apiKey: string, stationId: int)
    | PlaylistBinding(dir: string, playlist: Playlist)
    | RandomComposition(weights: seq<int>, vars: seq<string>)
    | HarborInput(port: int)
    | CrossfadeSetting(seconds: nat)
    | Output(target: Outputs.OutputTarget)

  /** Runs of statements that do not depend on the station. A run of several
      lines is their newline-joined text, so it renders exactly as the
      separate lines would inside the newline-joined script. */
  datatype FixedBlock =
    | Header
    | TelnetOn
    | HarborSettings
    | NextSongHead
    | NextSongTail
    | DjAuthHead
    | DjAuthTail
    | LiveToggle
    | FallbackComment
    | Blank
    | FallbackChain
    | LiveTail
    | CrossfadeComment
    | CustomComment
    | OutboundComment

  function FixedLines(f: FixedBlock): seq<string>
  {
    match f
    case Header => [
      "# WARNING! This file is automatically generated by AzuraCast.",
      "# Do not update it directly!",
      "",
      "set(\"init.daemon\", false)" ]
    case TelnetOn => ["set(\"server.telnet\",true)"]
    case HarborSettings => [
      "set(\"server.telnet.reverse_dns\",false)",
      "set(\"harbor.bind_addr\",\"0.0.0.0\")",
      "set(\"harbor.reverse_dns\",false)",
      "" ]
    case NextSongHead => [
      "# AutoDJ Next Song Script",
      "def azuracast_next_song() =" ]
    case NextSongTail => [
      "  uri = list.hd(uri, default=\"\")",
      "  log(\"AzuraCast Raw Response: #{uri}\")",
      "  request.create(uri)",
      "end",
      "" ]
    case DjAuthHead => [
      "# DJ Authentication",
      "def dj_auth(user,password) =",
      "  log(\"Authenticating DJ: #{user}\")" ]
    case DjAuthTail => [
      "  ret = list.hd(ret, default=\"\")",
      "  log(\"AzuraCast DJ Auth Response: #{ret}\")",
      "  bool_of_string(ret)",
      "end",
      "" ]
    // The `live_enabled` flag and the harbor callbacks that set and clear it.
    case LiveToggle => [
      "live_enabled = ref false",
      "",
      "def live_connected(header) =",
      "    log(\"DJ Source connected!\")",
      "    live_enabled := true",
      "end",
      "",
      "def live_disconnected() =",
      "   log(\"DJ Source disconnected!\")",
      "   live_enabled := false",
      "end",
      "" ]
    case FallbackComment => ["# Fallback Playlists"]
    case Blank => [""]
    // The request source and the fallback chain: dynamic requests first, then
    // the playlists, then silence.
    case FallbackChain => [
      "dynamic = request.dynamic(id=\"azuracast_next_song\", azuracast_next_song)",
      "dynamic = cue_cut(id=\"azuracast_next_song_cued\", dynamic)",
      "radio = fallback(track_sensitive = false, [dynamic, playlists, blank(duration=2.)])",
      "" ]
    // The live input is kept from blocking the pipeline, and the switch prefers
    // it whenever a DJ is connected.
    case LiveTail => [
      "ignore(output.dummy(live, fallible=true))",
      "live = fallback(track_sensitive=false, [live, blank(duration=2.)])",
      "",
      "radio = switch(id=\"live_switch\", track_sensitive=false, [({!live_enabled}, live), ({true}, radio)])",
      "" ]
    case CrossfadeComment => ["# Crossfading"]
    case CustomComment => ["# Custom Configuration (Specified in Station Profile)"]
    case OutboundComment => ["# Outbound Broadcast"]
  }

  /** Endpoint of the internal API for a station. */
  function ApiEndpoint(stationId: int, action: string): string
  {
    "/api/internal/" + IntToString(stationId) + "/" + action
  }

  /** The callback command that asks the internal API for the next track. */
  function NextSongCommand(insideDocker: bool, apiKey: string, stationId: int): string
  {
    Commands.ApiUrlCommand(insideDocker, apiKey, ApiEndpoint(stationId, "nextsong"), [])
  }

  /** The user name and password are the engine's own interpolation placeholders. */
  const DjAuthParams: Commands.Params := [("dj_user", "#{user}"), ("dj_password", "#{password}")]

  /** The callback command that asks the internal API whether a DJ may connect. */
  function DjAuthCommand(insideDocker: bool, apiKey: string, stationId: int): string
  {
    Commands.ApiUrlCommand(insideDocker, apiKey, ApiEndpoint(stationId, "auth"), DjAuthParams)
  }

  /** The next-song callback posts nothing but the station's API key. */
  lemma NextSongCommandFields(insideDocker: bool, apiKey: string, stationId: int)
    ensures NextSongCommand(insideDocker, apiKey, stationId)
      == Commands.CurlPrefix + Commands.ApiBase(insideDocker) + ApiEndpoint(stationId, "nextsong")
         + " --form api_auth=" + apiKey
  {
    assert !Commands.HasKey([], "api_auth");
  }

  /** The DJ authentication callback posts the DJ's credentials and then the
      station's API key, in that order. */
  lemma DjAuthCommandFields(insideDocker: bool, apiKey: string, stationId: int)
    ensures DjAuthCommand(insideDocker, apiKey, stationId)
      == Commands.CurlPrefix + Commands.ApiBase(insideDocker) + ApiEndpoint(stationId, "auth")
         + Commands.FormArg("dj_user", "#{user}") + Commands.FormArg("dj_password", "#{password}")
         + " --form api_auth=" + apiKey
  {
    var ps := DjAuthParams;
    assert !Commands.HasKey(ps, "api_auth") by {
      assert ps[0].0[3] != "api_auth"[3];
      assert ps[1].0[3] != "api_auth"[3];
    }
    Commands.FormArgsPair(ps[0].0, ps[0].1, ps[1].0, ps[1].1);
  }

  /** Arguments of the live harbor input. */
  function HarborParams(port: int): (r: seq<string>)
    ensures |r| == 11
  {
    [ "\"/\"",
      "port=" + IntToString(port),
      "user=\"shoutcast\"",
      "auth=dj_auth",
      "icy=true",
      "max=30.",
      "buffer=5.",
      "icy_metadata_charset=\"UTF-8\"",
      "metadata_charset=\"UTF-8\"",
      "on_connect=live_connected",
      "on_disconnect=live_disconnected" ]
  }

  /** `round(c * 1.5)` for a positive whole number of seconds: the integer
      nearest to 1.5c, halves rounded up. */
  function StartNext(c: nat): (r: int)
    ensures 2 * r - 1 <= 3 * c < 2 * r + 1
  {
    (3 * c + 1) / 2
  }

  /** Exactly one integer is the rounding of 1.5c, so `StartNext` is the only
      value meeting its contract. */
  lemma StartNextUnique(c: nat, r: int)
    requires 2 * r - 1 <= 3 * c < 2 * r + 1
    ensures r == StartNext(c)
  {
  }

  /** The crossfade statement fades out and in over the setting's seconds and
      starts the next track at 1.5 times that, rounded half up. */
  lemma CrossfadeStatement(c: nat, r: int)
    requires c > 0 && 2 * r - 1 <= 3 * c < 2 * r + 1
    ensures Render(CrossfadeSetting(c))
      == "radio = crossfade(start_next=" + IntToString(r) + ".,fade_out="
         + IntToString(c) + ".,fade_in=" + IntToString(c) + ".,radio)"
  {
    StartNextUnique(c, r);
  }

  /** The text of one line. */
  function Render(l: Line): string
  {
    match l
    case Fixed(f) => Join("\n", FixedLines(f))
    case Custom(text) => text
    case PidFileSetting(dir) => "set(\"init.daemon.pidfile.path\",\"" + dir + "/liquidsoap.pid\")"
    case LogFileSetting(dir) => "set(\"log.file.path\",\"" + dir + "/liquidsoap.log\")"
    case StdoutSetting(d) => if d then "set(\"log.stdout\", true)" else ""
    case TelnetBindSetting(d) => "set(\"server.telnet.bind_addr\",\"" + (if d then "0.0.0.0" else "127.0.0.1") + "\")"
    case TelnetPortSetting(port) => "set(\"server.telnet.port\", " + IntToString(port) + ")"
    case NextSongRequest(d, key, id) => "  uri = get_process_lines(\"" + NextSongCommand(d, key, id) + "\")"
    case DjAuthRequest(d, key, id) => "  ret = get_process_lines(\"" + DjAuthCommand(d, key, id) + "\")"
    case PlaylistBinding(dir, p) => Playlists.BindingLine(dir, p)
    case RandomComposition(weights, vars) => Playlists.RandomLine(weights, vars)
    case HarborInput(port) => "live = audio_to_stereo(input.harbor(" + Join(", ", HarborParams(port)) + "))"
    case CrossfadeSetting(c) =>
      "radio = crossfade(start_next=" + IntToString(StartNext(c)) + ".,fade_out="
        + IntToString(c) + ".,fade_in=" + IntToString(c) + ".,radio)"
    case Output(t) => Outputs.RenderOutput(t)
  }

  /** The entries of the script's line array that a line stands for: the lines
      of a fixed run, or the one rendered line. */
  function Entries(l: Line): (r: seq<string>)
    ensures !l.Fixed? ==> r == [Render(l)]
  {
    match l
    case Fixed(f) => FixedLines(f)
    case _ => [Render(l)]
  }

  /** The script's line array: every line's entries, in order. */
  function AllEntries(ls: seq<Line>): seq<string>
  {
    Flatten(MapSeq(ls, Entries))
  }

  /** The entries of consecutive parts of the script follow one another. */
  lemma AllEntriesAppend(a: seq<Line>, b: seq<Line>)
    ensures AllEntries(a + b) == AllEntries(a) + AllEntries(b)
  {
    MapSeqAppend(a, b, Entries);
    FlattenAppend(MapSeq(a, Entries), MapSeq(b, Entries));
  }

  /** Contents of the written script file: the line array joined by newlines. */
  function ScriptText(ls: seq<Line>): string
  {
    Join("\n", AllEntries(ls))
  }

  /** The file text of consecutive parts of the script: each part's text, one
      newline between them. */
  lemma ScriptTextAppend(a: seq<Line>, b: seq<Line>)
    requires |AllEntries(a)| > 0 && |AllEntries(b)| > 0
    ensures ScriptText(a + b) == ScriptText(a) + "\n" + ScriptText(b)
  {
    AllEntriesAppend(a, b);
    JoinAppend("\n", AllEntries(a), AllEntries(b));
  }

  // ---------------------------------------------------------------------------
  // Preamble: engine settings, callback functions, live-state toggle
  // ---------------------------------------------------------------------------

  const PreambleLength: nat := 15

  /** Position of the command-server port setting. */
  const TelnetPortIndex: nat := 6

  /** Positions of the two API callbacks. */
  const NextSongIndex: nat := 9
  const DjAuthIndex: nat := 12

  /** Engine settings, the next-song and DJ-authentication callbacks, and the
      live-state toggle. The command server listens on the port `command()`
      dials, and both callbacks carry the station's API key. */
  function Preamble(st: Station, insideDocker: bool): (r: seq<Line>)
    ensures |r| == PreambleLength
    ensures r[TelnetPortIndex] == TelnetPortSetting(Commands.ControlEndpoint(insideDocker, st.id).port)
    ensures r[NextSongIndex] == NextSongRequest(insideDocker, st.adapterApiKey, st.id)
    ensures r[DjAuthIndex] == DjAuthRequest(insideDocker, st.adapterApiKey, st.id)
  {
    [ Fixed(Header),
      PidFileSetting(st.configDir),
      LogFileSetting(st.configDir),
      StdoutSetting(insideDocker),
      Fixed(TelnetOn),
      TelnetBindSetting(insideDocker),
      TelnetPortSetting(Ports.TelnetPort(st.id)),
      Fixed(HarborSettings),
      Fixed(NextSongHead),
      NextSongRequest(insideDocker, st.adapterApiKey, st.id),
      Fixed(NextSongTail),
      Fixed(DjAuthHead),
      DjAuthRequest(insideDocker, st.adapterApiKey, st.id),
      Fixed(DjAuthTail),
      Fixed(LiveToggle) ]
  }

  // ---------------------------------------------------------------------------
  // Sources: playlists, fallback chain, live harbor, switch
  // ---------------------------------------------------------------------------

  /** One binding line per source, in source order. */
  function PlaylistBindings(dir: string, sources: seq<Playlist>): (r: seq<Line>)
    ensures |r| == |sources|
    ensures forall j :: 0 <= j < |sources| ==> r[j] == PlaylistBinding(dir, sources[j])
  {
    seq(|sources|, j requires 0 <= j < |sources| => PlaylistBinding(dir, sources[j]))
  }

  /** The j-th binding line renders as the statement the materialisation loop
      emits for the j-th source. */
  lemma PlaylistBindingsRender(dir: string, sources: seq<Playlist>, j: nat)
    requires j < |sources|
    ensures Render(PlaylistBindings(dir, sources)[j]) == Playlists.BindingLines(dir, sources)[j]
  {
  }

  /** Offsets, within the source lines, of the random source and the harbor input. */
  function RandomOffset(sources: seq<Playlist>): nat { |sources| + 2 }
  function HarborOffset(sources: seq<Playlist>): nat { |sources| + 4 }

  /** The weighted random source, the fallback chain, the live harbor input
      and the live switch. */
  function MixLines(defaults: (seq<int>, seq<string>), harborPort: int): (r: seq<Line>)
    ensures |r| == 4
    ensures r[0] == RandomComposition(defaults.0, defaults.1)
    ensures r[2] == HarborInput(harborPort)
  {
    [ RandomComposition(defaults.0, defaults.1),
      Fixed(FallbackChain),
      HarborInput(harborPort),
      Fixed(LiveTail) ]
  }

  /** `# Fallback Playlists`, one binding per source and a blank line, then the
      random source over the default-type sources, the live input on the
      station's stream port, and the switch. */
  function SourceLines(st: Station, sources: seq<Playlist>): (r: seq<Line>)
    ensures |r| == |sources| + 6
    ensures forall j :: 0 <= j < |sources| ==> r[1 + j] == PlaylistBinding(st.playlistsDir, sources[j])
    ensures r[RandomOffset(sources)] == RandomComposition(Playlists.DefaultSources(sources).0, Playlists.DefaultSources(sources).1)
    ensures r[HarborOffset(sources)] == HarborInput(Ports.StreamPort(st.id))
  {
    var head := [Fixed(FallbackComment)] + PlaylistBindings(st.playlistsDir, sources) + [Fixed(Blank)];
    var mix := MixLines(Playlists.DefaultSources(sources), Ports.StreamPort(st.id));
    assert (head + mix)[RandomOffset(sources)] == mix[0] && (head + mix)[HarborOffset(sources)] == mix[2];
    head + mix
  }

  // ---------------------------------------------------------------------------
  // Crossfade and custom configuration
  // ---------------------------------------------------------------------------

  /** `(int)($settings['crossfade'] ?? 2)`: an absent setting means 2 seconds. */
  function CrossfadeSeconds(b: BackendConfig): (c: int)
    ensures b.crossfade.None? ==> c == 2
    ensures b.crossfade.Some? ==> c == b.crossfade.value
  {
    match b.crossfade
    case None => 2
    case Some(c) => c
  }

  /** The crossfade block: present exactly when the setting is positive. */
  function CrossfadeLines(b: BackendConfig): (r: seq<Line>)
    ensures |r| == 0 <==> CrossfadeSeconds(b) <= 0
    ensures CrossfadeSeconds(b) > 0 ==>
      r == [Fixed(CrossfadeComment), CrossfadeSetting(CrossfadeSeconds(b)), Fixed(Blank)]
  {
    var c := CrossfadeSeconds(b);
    if c > 0 then [Fixed(CrossfadeComment), CrossfadeSetting(c), Fixed(Blank)] else []
  }

  /** The operator's raw fragment, copied verbatim when not empty (PHP's `empty`
      also treats "0" as empty). */
  function CustomLines(b: BackendConfig): (r: seq<Line>)
    ensures |r| == 0 <==> Falsy(b.customConfig)
    ensures !Falsy(b.customConfig) ==> |r| == 3 && r[1] == Custom(b.customConfig)
  {
    if Falsy(b.customConfig) then []
    else [Fixed(CustomComment), Custom(b.customConfig), Fixed(Blank)]
  }

  // ---------------------------------------------------------------------------
  // write()
  // ---------------------------------------------------------------------------

  /** The configured base URL, `localhost` when the setting is absent. */
  function BaseUrl(env: Environment): string
  {
    match env.baseUrlSetting
    case None => "localhost"
    case Some(u) => u
  }

  /** A station without a URL of its own advertises the site's base URL on
      every output, `localhost` when that setting is absent. */
  lemma OutputUrlFallback(kind: Outputs.OutputKind, st: Station, env: Environment, k: nat)
    requires Falsy(st.url)
    requires k < |Outputs.EnabledIndices(st.mounts)|
    ensures var ts := Outputs.MountTargets(kind, st, BaseUrl(env), st.mounts);
            k < |ts|
            && (env.baseUrlSetting.None? ==> ts[k].url == "localhost")
            && (env.baseUrlSetting.Some? && Sanitize.SafeLiteral(env.baseUrlSetting.value)
                ==> ts[k].url == env.baseUrlSetting.value)
  {
    if env.baseUrlSetting.None? {
      assert Sanitize.SafeLiteral("localhost");
    }
    if Sanitize.SafeLiteral(BaseUrl(env)) {
      Outputs.UrlFallback(kind, st, BaseUrl(env), st.mounts, k);
    } else {
      Outputs.MountTargetsPerMount(kind, st, BaseUrl(env), st.mounts);
    }
  }

  /** The output flavour for the stored frontend type name: `remote` has none,
      `shoutcast2` is Shoutcast 2, and every other name, `icecast` included,
      takes the Icecast branch, which is also the switch's default. */
  function OutputKindFor(t: string): (k: Option<Outputs.OutputKind>)
    ensures k.None? <==> t == "remote"
    ensures k == Some(Outputs.ShoutcastOutput) <==> t == "shoutcast2"
    ensures k == Some(Outputs.IcecastOutput) <==> t != "remote" && t != "shoutcast2"
  {
    if t == "remote" then None
    else if t == "shoutcast2" then Some(Outputs.ShoutcastOutput)
    else Some(Outputs.IcecastOutput)
  }

  /** The crossfade block, the custom block and the `# Outbound Broadcast` heading. */
  function TailLines(b: BackendConfig): (r: seq<Line>)
    ensures |r| == |CrossfadeLines(b)| + |CustomLines(b)| + 1
    ensures CrossfadeSeconds(b) > 0 ==> r[1] == CrossfadeSetting(CrossfadeSeconds(b))
    ensures r[|r| - 1] == Fixed(OutboundComment)
    ensures r[..|CrossfadeLines(b)|] == CrossfadeLines(b)
    ensures r[|CrossfadeLines(b)|..|r| - 1] == CustomLines(b)
  {
    var c := CrossfadeLines(b);
    var u := CustomLines(b);
    var r := c + u + [Fixed(OutboundComment)];
    assert r[..|c|] == c;
    assert r[|c|..|r| - 1] == u;
    r
  }

  /** The station's custom configuration reaches the script verbatim, right
      after the crossfade block and its own heading, exactly when it is not
      empty. */
  lemma CustomTextInTail(b: BackendConfig)
    ensures var r := TailLines(b);
            var at := |CrossfadeLines(b)| + 1;
            (!Falsy(b.customConfig) ==> at < |r| && r[at] == Custom(b.customConfig))
            && (Falsy(b.customConfig) ==> forall i :: 0 <= i < |r| ==> !r[i].Custom?)
  {
    var r := TailLines(b);
    var c := CrossfadeLines(b);
    if !Falsy(b.customConfig) {
      assert r[|c|..|r| - 1][1] == r[|c| + 1];
    } else {
      forall i | 0 <= i < |r|
        ensures !r[i].Custom?
      {
        if i < |c| {
          assert r[..|c|][i] == r[i];
        }
      }
    }
  }

  /** One output line per mount that has AutoDJ enabled, in mount order. */
  function OutputLines(targets: seq<Outputs.OutputTarget>): (r: seq<Line>)
    ensures |r| == |targets|
    ensures forall k :: 0 <= k < |targets| ==> r[k] == Output(targets[k])
  {
    seq(|targets|, k requires 0 <= k < |targets| => Output(targets[k]))
  }

  /** The selection `write()` makes for station `st`. */
  function Sources(st: Station, env: Environment): seq<Playlist>
  {
    Playlists.SelectPlaylists(st.playlists, env.newPlaylist).sources
  }

  /** The script in its four consecutive sections. */
  datatype Sections = Sections(preamble: seq<Line>, sources: seq<Line>, tail: seq<Line>, outputs: seq<Line>)

  function AllLines(sc: Sections): seq<Line>
  {
    sc.preamble + sc.sources + sc.tail + sc.outputs
  }

  /** The sections `write()` assembles. Everything up to the
      `# Outbound Broadcast` heading is built before the frontend type is looked
      at; the outputs follow unless the frontend is remote. */
  function Assemble(st: Station, env: Environment): (sc: Sections)
    ensures |sc.preamble| == PreambleLength
    ensures |sc.sources| == |Sources(st, env)| + 6
    ensures |sc.tail| > 0 && sc.tail[|sc.tail| - 1] == Fixed(OutboundComment)
    ensures st.frontendType == "remote" ==> sc.outputs == []
    ensures sc.sources == SourceLines(st, Sources(st, env))
    ensures sc.tail == TailLines(st.backend)
    ensures OutputKindFor(st.frontendType).Some? ==>
      sc.outputs == OutputLines(Outputs.MountTargets(OutputKindFor(st.frontendType).value, st, BaseUrl(env), st.mounts))
  {
    Sections(
      Preamble(st, env.insideDocker),
      SourceLines(st, Sources(st, env)),
      TailLines(st.backend),
      match OutputKindFor(st.frontendType)
      case None => []
      case Some(kind) => OutputLines(Outputs.MountTargets(kind, st, BaseUrl(env), st.mounts)))
  }

  /** The first section is the preamble built from the station and the
      environment, so the command port and both API callbacks that `Preamble`
      pins open the lines `Write` returns (`AllLines` puts the preamble first). */
  lemma AssemblePreamble(st: Station, env: Environment)
    ensures Assemble(st, env).preamble == Preamble(st, env.insideDocker)
  {
  }

  /** Names in the playlist directory to delete: every entry but `.` and `..`. */
  function StaleEntries(listing: seq<string>): (r: seq<string>)
    ensures forall e :: e in r <==> e in listing && e != "." && e != ".."
  {
    if |listing| == 0 then []
    else (if listing[0] != "." && listing[0] != ".." then [listing[0]] else []) + StaleEntries(listing[1..])
  }

  function InDir(dir: string, names: seq<string>): (r: seq<string>)
    ensures |r| == |names|
    ensures forall k :: 0 <= k < |names| ==> r[k] == dir + "/" + names[k]
  {
    seq(|names|, k requires 0 <= k < |names| => dir + "/" + names[k])
  }

  /** The files `write()` tries to delete before any playlist is written:
      every entry of the playlist directory but `.` and `..`. Each attempt is
      made with `@unlink`, whose failure is ignored, so these are attempts and
      not necessarily removals. */
  function StaleFiles(dir: string, listing: seq<string>): (r: seq<string>)
    ensures forall p :: p in r <==> exists e :: e in listing && e != "." && e != ".." && p == dir + "/" + e
  {
    var names := StaleEntries(listing);
    var r := InDir(dir, names);
    StaleFilesComplete(dir, listing, names, r);
    r
  }

  lemma StaleFilesComplete(dir: string, listing: seq<string>, names: seq<string>, r: seq<string>)
    requires forall e :: e in names <==> e in listing && e != "." && e != ".."
    requires |r| == |names| && forall k :: 0 <= k < |names| ==> r[k] == dir + "/" + names[k]
    ensures forall p :: p in r <==> exists e :: e in listing && e != "." && e != ".." && p == dir + "/" + e
  {
    forall p | p in r
      ensures exists e :: e in listing && e != "." && e != ".." && p == dir + "/" + e
    {
      var k :| 0 <= k < |r| && r[k] == p;
      assert names[k] in names;
    }
    forall p | exists e :: e in listing && e != "." && e != ".." && p == dir + "/" + e
      ensures p in r
    {
      var e :| e in listing && e != "." && e != ".." && p == dir + "/" + e;
      assert e in names;
      var k :| 0 <= k < |names| && names[k] == e;
      assert r[k] == p;
    }
  }

  type FileWrite = Playlists.FileWrite

  /** Everything one call of `write()` does: the lines it assembled, the files
      it tried to delete, the files it wrote, the playlist it created, and its
      boolean result. */
  datatype WriteResult = WriteResult(
    success: bool,
    lines: seq<Line>,
    unlinkAttempts: seq<string>,
    createdPlaylist: Option<Playlist>,
    playlistFiles: seq<FileWrite>,
    scriptFile: Option<FileWrite>)

  /** `write()` for station `st`; `listing` is what the playlist directory held
      before the call. */
  function Write(st: Station, env: Environment, listing: seq<string>): (r: WriteResult)
    ensures r.success <==> st.frontendType != "remote"
    ensures r.scriptFile.Some? <==> r.success
    ensures r.lines == AllLines(Assemble(st, env))
    ensures r.success ==> r.scriptFile == Some(Playlists.FileWrite(st.configDir + "/liquidsoap.liq", ScriptText(r.lines)))
    ensures r.createdPlaylist.Some? <==> !Playlists.HasEnabledDefault(st.playlists)
    ensures r.createdPlaylist == Playlists.SelectPlaylists(st.playlists, env.newPlaylist).created
    ensures r.playlistFiles == Playlists.PlaylistFiles(st.playlistsDir, Playlists.SelectPlaylists(st.playlists, env.newPlaylist).sources)
    ensures forall p :: p in r.unlinkAttempts <==>
      exists e :: e in listing && e != "." && e != ".." && p == st.playlistsDir + "/" + e
  {
    WriteResult(st.frontendType != "remote", AllLines(Assemble(st, env)),
                StaleFiles(st.playlistsDir, listing),
                Playlists.SelectPlaylists(st.playlists, env.newPlaylist).created,
                Playlists.PlaylistFiles(st.playlistsDir, Playlists.SelectPlaylists(st.playlists, env.newPlaylist).sources),
                if st.frontendType == "remote" then None
                else Some(Playlists.FileWrite(st.configDir + "/liquidsoap.liq", ScriptText(AllLines(Assemble(st, env))))))
  }

  // ---------------------------------------------------------------------------
  // Properties of the generated script
  // ---------------------------------------------------------------------------

  /** The command server is opened on the port `command()` dials, and the live
      harbor input listens on the station's stream port, which is a different port. */
  lemma ScriptPorts(st: Station, env: Environment)
    ensures Assemble(st, env).preamble[TelnetPortIndex]
      == TelnetPortSetting(Commands.ControlEndpoint(env.insideDocker, st.id).port)
    ensures Assemble(st, env).sources[HarborOffset(Sources(st, env))] == HarborInput(Ports.StreamPort(st.id))
    ensures Ports.StreamPort(st.id) != Commands.ControlEndpoint(env.insideDocker, st.id).port
  {
    Ports.PortsNeverCollide(st.id, st.id);
  }

  /** Every variable the random source draws from is bound by a playlist line
      earlier in the source section: its k-th name is that of the k-th
      default-type source, whose binding precedes the random source. */
  lemma {:induction false} RandomSourceBoundEarlier(st: Station, sources: seq<Playlist>, k: nat)
    requires k < |Playlists.DefaultIndices(sources)|
    ensures var j := Playlists.DefaultIndices(sources)[k];
            var lines := SourceLines(st, sources);
            1 + j < RandomOffset(sources)
            && lines[1 + j] == PlaylistBinding(st.playlistsDir, sources[j])
            && lines[RandomOffset(sources)] == RandomComposition(Playlists.DefaultSources(sources).0, Playlists.DefaultSources(sources).1)
            && k < |Playlists.DefaultSources(sources).1|
            && Playlists.DefaultSources(sources).1[k] == Playlists.VarName(sources[j])
  {
    var ix := Playlists.DefaultIndices(sources);
    var lines := SourceLines(st, sources);
    Playlists.DefaultSourcesAligned(sources);
    assert lines[1 + ix[k]] == PlaylistBinding(st.playlistsDir, sources[ix[k]]);
  }

  /** The random source draws from exactly as many variables as there are
      default-type sources. */
  lemma RandomSourceSize(st: Station, sources: seq<Playlist>)
    ensures |SourceLines(st, sources)[RandomOffset(sources)].vars| == |Playlists.DefaultIndices(sources)|
    ensures |SourceLines(st, sources)[RandomOffset(sources)].weights| == |Playlists.DefaultIndices(sources)|
  {
    Playlists.DefaultSourcesAligned(sources);
  }

  /** The crossfade block opens the tail exactly when the setting is positive;
      its statement fades over the setting's seconds. */
  lemma CrossfadePlacement(st: Station, env: Environment)
    ensures var tail := Assemble(st, env).tail;
            (tail[0] == Fixed(CrossfadeComment) <==> CrossfadeSeconds(st.backend) > 0)
            && (CrossfadeSeconds(st.backend) > 0 ==> tail[1] == CrossfadeSetting(CrossfadeSeconds(st.backend)))
  {
    var b := st.backend;
    var tail := TailLines(b);
    if CrossfadeSeconds(b) <= 0 {
      if Falsy(b.customConfig) {
        assert tail[0] == Fixed(OutboundComment);
      } else {
        assert tail[0] == Fixed(CustomComment);
      }
    }
  }

  /** The outbound section holds exactly one output per mount with AutoDJ
      enabled, in mount order, each numbered by its mount's 1-based position in
      the full mount list. */
  lemma OutputsFollowMounts(kind: Outputs.OutputKind, st: Station, baseUrl: string)
    ensures var outs := OutputLines(Outputs.MountTargets(kind, st, baseUrl, st.mounts));
            var ix := Outputs.EnabledIndices(st.mounts);
            |outs| == |ix|
            && forall k :: 0 <= k < |ix| ==>
                 outs[k] == Output(Outputs.Target(kind, st, baseUrl, st.mounts[ix[k]], ix[k] + 1))
  {
    Outputs.NumberedMountsPerMount(st.mounts);
  }

  /** The random source has at least one playlist to draw from exactly when
      the station has an enabled default playlist or the playlist created on
      demand is itself of the default type. */
  lemma RandomSourceNonEmpty(st: Station, env: Environment)
    ensures |Playlists.DefaultSources(Sources(st, env)).1| > 0
            <==> Playlists.HasEnabledDefault(st.playlists) || IsDefaultType(env.newPlaylist)
  {
    Playlists.SelectionHasDefault(st.playlists, env.newPlaylist);
    var sources := Sources(st, env);
    if Playlists.HasEnabledDefault(st.playlists) || IsDefaultType(env.newPlaylist) {
      var j :| 0 <= j < |sources| && IsDefaultType(sources[j]);
      Playlists.DefaultSourcesNonEmpty(sources, j);
    } else {
      Playlists.DefaultSourcesEmpty(sources);
    }
  }
}
