/** The station configuration that script generation reads. PHP's loose values
    are made explicit: a missing string field is "", a missing number is 0, and
    a setting that may be absent is an `Option`. */
module StationModel {
  import opened Text

  /** A station playlist. `m3u` is what the playlist's own export produces for
      the `m3u` format; the export itself is not modelled. */
  datatype Playlist = Playlist(
    name: string,
    shortName: string,
    isEnabled: bool,
    playlistType: string,
    weight: int,
    m3u: string)

  /** A mount point on the broadcast server. */
  datatype Mount = Mount(
    name: string,
    enableAutodj: bool,
    autodjFormat: string,
    autodjBitrate: int,
    isPublic: bool)

  /** Backend settings: `crossfade` is `None` when the key is absent or null;
      `customConfig` is "" when unset. */
  datatype BackendConfig = BackendConfig(crossfade: Option<int>, customConfig: string)

  /** Frontend settings used for the outbound connection. */
  datatype FrontendConfig = FrontendConfig(port: int, sourcePassword: string)

  /** `frontendType` is the stored type name of the broadcast server, such as
      `icecast`, `shoutcast2` or `remote`; any name is allowed. */
  datatype Station = Station(
    id: int,
    name: string,
    description: string,
    url: string,
    adapterApiKey: string,
    backend: BackendConfig,
    frontendType: string,
    frontend: FrontendConfig,
    playlists: seq<Playlist>,
    mounts: seq<Mount>,
    playlistsDir: string,
    configDir: string)

  /** What the generator takes from its surroundings instead of reading it from
      global state: whether it runs inside Docker, the stored `base_url` setting,
      and the playlist record the entity layer builds for this station when a
      default playlist has to be created. */
  datatype Environment = Environment(
    insideDocker: bool,
    baseUrlSetting: Option<string>,
    newPlaylist: Playlist)

  predicate IsDefaultType(p: Playlist) {
    p.playlistType == "default"
  }
}
