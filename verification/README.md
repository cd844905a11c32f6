# AzuraCast LiquidSoap backend: script generation and control channel

This project models the LiquidSoap backend adapter of AzuraCast in Dafny. The adapter has two jobs:

- `write()` turns a station's stored configuration into the engine script `liquidsoap.liq`. The configuration covers playlists, mounts, crossfade, custom configuration and frontend settings.
- `command()` sends one command over the engine's telnet control socket and collects the lines the engine sends back.

The model is written as pure functions over immutable data:

- `StationModel` holds the station, its playlists and mounts, and the backend and frontend settings. Every PHP loose value is made explicit: "" and "0" are falsy, and a setting that may be absent is an `Option`.
- `Script` represents the generated script as a sequence of `Line`s.
  - Each statement that does not depend on the station is a named `FixedBlock`. Every statement that does depend on it is a constructor carrying the values it is built from.
  - `Render` gives each line's exact text, and `ScriptText` joins the script's entries with newlines, as `implode("\n", $ls_config)` does.
  - The script is assembled in four consecutive `Sections`: preamble, sources, tail (crossfade, custom configuration, the outbound heading) and outputs.
- `Write` returns everything one call does as data:
  - the boolean result;
  - the assembled lines;
  - the paths in the playlist directory it tries to delete;
  - the default playlist it creates, if any;
  - the track-list files it writes;
  - the script file it writes, if any.
- `Playlists` covers the selection of source playlists, the automatic default playlist, and the weighted `random(...)` composition.
- `Outputs` covers the encoder choice and the per-mount `output.icecast(...)` statements for Shoutcast 2 and Icecast.
- `Commands` covers the `curl` callback commands (`_getApiUrlCommand`), the control payload of `command()`, and the trimming of its response lines.
- `Sanitize` covers `_cleanUpString`, and `Ports` the per-station port block.

Some inputs the PHP code reads from global state or from services are parameters here, gathered in `Environment`:

- `APP_INSIDE_DOCKER`;
- the stored `base_url` setting;
- the playlist record the entity layer constructs when a default playlist must be created.

Two more values are carried in the data instead:

- the directory listing `scandir` returns is an argument of `Write`;
- each playlist's `export('m3u')` text is a field of `Playlist`.

## Model

| member | source | states |
|---|---|---|
| Ports.TelnetPort | app/src/AzuraCast/Radio/Backend/LiquidSoap.php:384-387 | the control port is 8000 + (id-1)*10 + 4, inside the station's own ten-port block |
| Ports.StreamPort | app/src/AzuraCast/Radio/Backend/LiquidSoap.php:379-382 | the harbor stream port is 8000 + (id-1)*10 + 5, inside the station's own ten-port block |
| Ports.BlocksDisjoint | app/src/AzuraCast/Radio/Backend/LiquidSoap.php:379-387 | a port lies in the block of at most one station id |
| Ports.PortsNeverCollide | app/src/AzuraCast/Radio/Backend/LiquidSoap.php:379-387 | distinct stations never share a telnet port or a stream port, and no telnet port equals any stream port |
| Sanitize.CleanUpString | app/src/AzuraCast/Radio/Backend/LiquidSoap.php:312-315 | the three `str_replace` passes equal the character-wise reference (`"` becomes `'`, newline and carriage return are dropped, everything else is kept in order), and the result contains no `"`, newline or carriage return |
| Sanitize.CleanUpFixesSafe | app/src/AzuraCast/Radio/Backend/LiquidSoap.php:312-315 | text without `"`, newline or carriage return passes through unchanged |
| Sanitize.CleanUpIdempotent | app/src/AzuraCast/Radio/Backend/LiquidSoap.php:312-315 | cleaning twice is cleaning once |
| Sanitize.CleanUpLength | app/src/AzuraCast/Radio/Backend/LiquidSoap.php:312-315 | the result is shorter than the input by exactly the number of newline and carriage-return characters, so a quote is replaced, not dropped |
| Sanitize.CleanUpAppend | app/src/AzuraCast/Radio/Backend/LiquidSoap.php:312-315 | cleaning distributes over concatenation: each character is handled independently and survivors keep their order |
| Commands.SetParam | app/src/AzuraCast/Radio/Backend/LiquidSoap.php:300-301 | assigning `api_auth` to the parameter array keeps every entry's key and position, leaves entries under other keys unchanged, gives every `api_auth` entry the new value, and adds one entry exactly when the key was missing |
| Commands.SetParamAppends | app/src/AzuraCast/Radio/Backend/LiquidSoap.php:300-301 | a missing `api_auth` key is appended after all existing entries, which stay as they were |
| Commands.ApiUrlCommand | app/src/AzuraCast/Radio/Backend/LiquidSoap.php:298-310 | the command starts with `curl -s --request POST --url`, the Docker-dependent host and the endpoint; without a caller-supplied `api_auth` it is followed by one ` --form k=v` per parameter in order and ends with ` --form api_auth=<key>` |
| Commands.FormArgsPair | app/src/AzuraCast/Radio/Backend/LiquidSoap.php:306-308 | two parameters become two ` --form` arguments, in array order |
| Commands.ControlPayload | app/src/AzuraCast/Radio/Backend/LiquidSoap.php:367 | the payload always ends with the newline and `quit` line that make the engine close the session |
| Commands.UrlDecodeEncode | app/src/AzuraCast/Radio/Backend/LiquidSoap.php:367 | `urldecode` inverts percent-encoding |
| Commands.UrlDecodePlain | app/src/AzuraCast/Radio/Backend/LiquidSoap.php:367 | text without `+` or `%` is left alone by `urldecode` |
| Commands.UrlDecodeNeverLonger | app/src/AzuraCast/Radio/Backend/LiquidSoap.php:367 | `urldecode` never lengthens the text |
| Commands.ControlPayloadRoundTrip | app/src/AzuraCast/Radio/Backend/LiquidSoap.php:367 | any command, with its ampersands HTML-escaped, its quotes backslash-escaped and the result percent-encoded, reaches the engine verbatim, followed by `\nquit\n` |
| Commands.ControlPayloadPlain | app/src/AzuraCast/Radio/Backend/LiquidSoap.php:367 | a command without `+`, `%`, backslash or `&` is sent exactly as given |
| Commands.ControlEndpoint | app/src/AzuraCast/Radio/Backend/LiquidSoap.php:361 | `command()` dials host `stations` inside Docker and `localhost` otherwise, on the station's telnet port |
| Commands.ResponseLines | app/src/AzuraCast/Radio/Backend/LiquidSoap.php:369-376 | one response entry per read, in order, none with surrounding whitespace, and a failed read yields the empty line |
| Commands.ResponseLinesContent | app/src/AzuraCast/Radio/Backend/LiquidSoap.php:369-371 | the entry for a read that returned text padded with whitespace is exactly that text |
| Commands.ResponseLineOfText | app/src/AzuraCast/Radio/Backend/LiquidSoap.php:371 | a line the engine sends as text plus line ending comes back as exactly that text |
| Playlists.Enabled | app/src/AzuraCast/Radio/Backend/LiquidSoap.php:82-92 | exactly the enabled playlists are kept |
| Playlists.EnabledPositions | app/src/AzuraCast/Radio/Backend/LiquidSoap.php:82-92 | reference filter: strictly increasing positions, each of an enabled playlist |
| Playlists.EnabledPositionsComplete | app/src/AzuraCast/Radio/Backend/LiquidSoap.php:82-92 | no enabled playlist is missed by the reference filter |
| Playlists.EnabledInOrder | app/src/AzuraCast/Radio/Backend/LiquidSoap.php:82-92 | the k-th kept playlist is the one at the k-th enabled position, so the filter keeps station order |
| Playlists.SelectPlaylists | app/src/AzuraCast/Radio/Backend/LiquidSoap.php:79-109 | the sources open with the enabled playlists, in station order (`Playlists.EnabledInOrder`); a playlist named `default` is created and appended as the last source exactly when no enabled playlist has type `default`, and it is the new record with only its name set; no disabled playlist of the station becomes a source |
| Playlists.SelectionHasDefault | app/src/AzuraCast/Radio/Backend/LiquidSoap.php:79-109 | after selection some source has type `default` exactly when the station had an enabled default playlist or the created record has that type |
| Playlists.BindingLine | app/src/AzuraCast/Radio/Backend/LiquidSoap.php:118-123 | a source's statement binds the variable `playlist_<short name>` to a watched playlist source |
| Playlists.PlaylistFiles | app/src/AzuraCast/Radio/Backend/LiquidSoap.php:116-121 | one file per source, in source order, at `<dir>/playlist_<short name>.m3u`, holding the playlist's export |
| Playlists.BindingWatchesWrittenFile | app/src/AzuraCast/Radio/Backend/LiquidSoap.php:116-123 | the j-th binding statement is `playlist_<short name> = playlist(reload_mode="watch","<path>")` with the path of the j-th file written |
| Playlists.FilePathInjective | app/src/AzuraCast/Radio/Backend/LiquidSoap.php:118-119 | within one directory, two playlists write the same file only if their short names are equal |
| Playlists.DefaultIndices | app/src/AzuraCast/Radio/Backend/LiquidSoap.php:125-128 | reference selection: strictly increasing positions, each of a default-type source |
| Playlists.DefaultIndicesComplete | app/src/AzuraCast/Radio/Backend/LiquidSoap.php:125-128 | no default-type source is missed by the reference selection |
| Playlists.DefaultSourcesAligned | app/src/AzuraCast/Radio/Backend/LiquidSoap.php:111-129 | the weights and variable lists accumulated by the loop have equal length and hold exactly the default-type sources, pairwise aligned, in materialisation order |
| Playlists.DefaultSourcesNonEmpty | app/src/AzuraCast/Radio/Backend/LiquidSoap.php:125-135 | the random composition is non-empty whenever some source has type `default` |
| Playlists.DefaultSourcesEmpty | app/src/AzuraCast/Radio/Backend/LiquidSoap.php:125-129 | without a default-type source both `random(...)` lists stay empty |
| Playlists.RandomLine | app/src/AzuraCast/Radio/Backend/LiquidSoap.php:134-135 | the random composition opens with `playlists = random(weights=[` and closes with `]);` |
| Outputs.NormalizedFormat | app/src/AzuraCast/Radio/Backend/LiquidSoap.php:251 | a falsy format becomes `mp3`; any other format is lowered character by character; no upper-case letter remains |
| Outputs.NormalizedFormatIgnoresCase | app/src/AzuraCast/Radio/Backend/LiquidSoap.php:251 | the letter case of the stored format does not affect the encoder chosen |
| Outputs.EffectiveBitrate | app/src/AzuraCast/Radio/Backend/LiquidSoap.php:252 | a zero or unset bitrate becomes 128; any other bitrate is kept |
| Outputs.CodecFor | app/src/AzuraCast/Radio/Backend/LiquidSoap.php:254-267 | `aac` selects HE-AAC; `ogg` selects Vorbis on Icecast only; every other format, `ogg` on Shoutcast 2 included, selects MP3 |
| Outputs.MountEncoder | app/src/AzuraCast/Radio/Backend/LiquidSoap.php:209-221 | a mount's encoder is AAC exactly when its normalised format is `aac`, Vorbis exactly on Icecast with `ogg`, with a non-zero bitrate that equals the mount's whenever that is set |
| Outputs.EncoderArgs | app/src/AzuraCast/Radio/Backend/LiquidSoap.php:254-267 | every encoder takes the bitrate, as a plain integer, as its third argument |
| Outputs.RenderEncoder | app/src/AzuraCast/Radio/Backend/LiquidSoap.php:254-267 | the encoder expression opens with `%`, the full encoder name (`mp3.cbr`, `fdkaac` or `vorbis.cbr`) and `(`, and ends with `)`; the Shoutcast 2 forms at lines 214 and 219 are the same texts |
| Outputs.RenderEncoderCarriesBitrate | app/src/AzuraCast/Radio/Backend/LiquidSoap.php:254-267 | after the encoder name and its first two arguments, the expression holds `bitrate=<n>` with the bitrate written as a decimal integer |
| Outputs.RenderEncoderCodec | app/src/AzuraCast/Radio/Backend/LiquidSoap.php:254-267 | encoders of different codecs never render to the same text |
| Outputs.IcecastParams | app/src/AzuraCast/Radio/Backend/LiquidSoap.php:270-283 | the Icecast parameters are twelve, in order: encoder, id, host, port, password, name, description, URL, mount, visibility, encoding and `radio`, each carrying the target's own value |
| Outputs.OutputParams | app/src/AzuraCast/Radio/Backend/LiquidSoap.php:223-235 | Shoutcast 2 takes the Icecast parameters without description and mount, with `protocol="icy"` before the encoding; both lists start with the encoder and the id and end with `radio` |
| Outputs.ShoutcastOmitsDescriptionAndMount | app/src/AzuraCast/Radio/Backend/LiquidSoap.php:223-235 | no Shoutcast 2 parameter is a description or a mount |
| Outputs.OutputCarriesStationText | app/src/AzuraCast/Radio/Backend/LiquidSoap.php:223-283 | the statement for a mount carries the cleaned station name and URL on both output types, and the cleaned description exactly on Icecast |
| Outputs.RenderOutputShape | app/src/AzuraCast/Radio/Backend/LiquidSoap.php:284 | every `output.icecast(...)` statement starts with the encoder and the id and ends with the source `radio`, for both output types (line 236 for Shoutcast 2) |
| Outputs.UnsetFormatIsMp3 | app/src/AzuraCast/Radio/Backend/LiquidSoap.php:209 | a mount with an unset or `0` format is encoded as MP3 on either output type |
| Outputs.OutputIdInjective | app/src/AzuraCast/Radio/Backend/LiquidSoap.php:225 | distinct numbers give distinct `radio_out_<i>` ids |
| Outputs.SourcePassword | app/src/AzuraCast/Radio/Backend/LiquidSoap.php:228 | Shoutcast 2 sends the source password followed by `:#<i>`; Icecast (line 275) sends it unchanged |
| Outputs.Target | app/src/AzuraCast/Radio/Backend/LiquidSoap.php:270-283 | an output carries the mount's encoder, number, name and public flag, the frontend port and the per-type password; the station name, description and URL (the base URL when the station has none) are the cleaned texts, which cannot break out of their quoted literals |
| Outputs.EnabledIndices | app/src/AzuraCast/Radio/Backend/LiquidSoap.php:247-249 | reference selection: strictly increasing positions of mounts with AutoDJ enabled |
| Outputs.EnabledIndicesComplete | app/src/AzuraCast/Radio/Backend/LiquidSoap.php:247-249 | no AutoDJ mount is missed |
| Outputs.NumberedMountsPerMount | app/src/AzuraCast/Radio/Backend/LiquidSoap.php:242-249 | the loop yields one entry per AutoDJ mount, in mount order, numbered by the mount's 1-based position in the full mount list (the counter advances before the disabled-mount `continue`) |
| Outputs.MountTargets | app/src/AzuraCast/Radio/Backend/LiquidSoap.php:242-286 | the outputs are the targets of the numbered mounts, one each, in order |
| Outputs.MountTargetsPerMount | app/src/AzuraCast/Radio/Backend/LiquidSoap.php:242-286 | one output per AutoDJ mount, in mount order, numbered by the mount's 1-based position |
| Outputs.UrlFallback | app/src/AzuraCast/Radio/Backend/LiquidSoap.php:278 | a station without a URL advertises the base URL, unchanged when it has nothing to clean |
| Outputs.OutputIdsDistinct | app/src/AzuraCast/Radio/Backend/LiquidSoap.php:242-272 | no two outputs of one station share an id |
| Outputs.FirstOutputExists | app/src/AzuraCast/Radio/Backend/LiquidSoap.php:354-357 | `radio_out_1`, the output `skip()` addresses, exists exactly when the first mount has AutoDJ enabled |
| Script.NextSongCommandFields | app/src/AzuraCast/Radio/Backend/LiquidSoap.php:41 | the next-song callback posts to `/api/internal/<id>/nextsong` with the API key as its only form field |
| Script.DjAuthCommandFields | app/src/AzuraCast/Radio/Backend/LiquidSoap.php:50 | the DJ authentication callback posts `dj_user`, then `dj_password`, then `api_auth` to `/api/internal/<id>/auth` |
| Script.Preamble | app/src/AzuraCast/Radio/Backend/LiquidSoap.php:24-67 | the preamble's command server listens on the port `command()` dials, and both callbacks carry the station's API key and id |
| Script.SourceLines | app/src/AzuraCast/Radio/Backend/LiquidSoap.php:77-163 | after the heading come one binding per source, in order, then the random composition over the default-type sources and the live harbor input on the station's stream port |
| Script.PlaylistBindingsRender | app/src/AzuraCast/Radio/Backend/LiquidSoap.php:116-123 | the j-th binding line of the script renders as the statement the materialisation loop emits for the j-th source |
| Script.StartNext | app/src/AzuraCast/Radio/Backend/LiquidSoap.php:168 | `start_next` is the integer nearest to 1.5 times the crossfade, halves rounded up |
| Script.StartNextUnique | app/src/AzuraCast/Radio/Backend/LiquidSoap.php:168 | only one integer meets that rounding bound |
| Script.CrossfadeStatement | app/src/AzuraCast/Radio/Backend/LiquidSoap.php:168-170 | the crossfade statement's `start_next` is round(1.5c), and both `fade_out` and `fade_in` are c |
| Script.CrossfadeSeconds | app/src/AzuraCast/Radio/Backend/LiquidSoap.php:166 | an absent or null crossfade setting means 2 seconds; a present one is used as it is |
| Script.CrossfadeLines | app/src/AzuraCast/Radio/Backend/LiquidSoap.php:167-172 | the crossfade block is emitted exactly when the setting is positive, and then it is the heading, the statement and a blank line |
| Script.CustomLines | app/src/AzuraCast/Radio/Backend/LiquidSoap.php:174-178 | the custom block is emitted exactly when the custom configuration is neither empty nor `0`, and it then holds the text verbatim |
| Script.OutputKindFor | app/src/AzuraCast/Radio/Backend/LiquidSoap.php:191-241 | the switch on the stored type name: only `remote` gets no output flavour; only `shoutcast2` gets the Shoutcast flavour; every other name, `icecast` included, falls to Icecast |
| Script.OutputUrlFallback | app/src/AzuraCast/Radio/Backend/LiquidSoap.php:189 | a station without a URL advertises `localhost` on every output when the `base_url` setting is absent, and the stored `base_url` when it has nothing to clean |
| Script.TailLines | app/src/AzuraCast/Radio/Backend/LiquidSoap.php:165-180 | the tail is the crossfade block, then the custom block, then the `# Outbound Broadcast` heading |
| Script.CustomTextInTail | app/src/AzuraCast/Radio/Backend/LiquidSoap.php:174-178 | a non-empty custom configuration appears verbatim right after the crossfade block and its heading; an empty one leaves no custom line |
| Script.AssemblePreamble | app/src/AzuraCast/Radio/Backend/LiquidSoap.php:24-67 | the script opens with the station's preamble, so the command port and both API callbacks pinned by `Script.Preamble` reach `Write`'s lines |
| Script.Assemble | app/src/AzuraCast/Radio/Backend/LiquidSoap.php:24-288 | the preamble has 15 entries of the line model and is the station's preamble (`Script.AssemblePreamble`), the sources section is the source lines of the selected playlists (six more entries than there are sources), the tail is the crossfade, custom and heading block, and the outputs are the mount outputs for the frontend's flavour, none for a remote frontend; fixed runs render to several script lines |
| Script.StaleEntries | app/src/AzuraCast/Radio/Backend/LiquidSoap.php:71 | every directory entry but `.` and `..` is stale |
| Script.StaleFiles | app/src/AzuraCast/Radio/Backend/LiquidSoap.php:70-74 | the paths `write()` tries to delete are exactly `<playlist dir>/<entry>` for every entry but `.` and `..`; failures of `@unlink` are ignored, so these are attempts |
| Script.Write | app/src/AzuraCast/Radio/Backend/LiquidSoap.php:17-296 | `write()` succeeds and writes `<config dir>/liquidsoap.liq` with the newline-joined script exactly when the frontend is not remote; a playlist is created exactly when no enabled default playlist exists, and the record returned is the one the selection appends as a source; the playlist files and the deletion attempts happen in either case |
| Script.AllEntriesAppend | app/src/AzuraCast/Radio/Backend/LiquidSoap.php:290 | the entries of consecutive parts of the script follow one another in the joined file |
| Script.ScriptTextAppend | app/src/AzuraCast/Radio/Backend/LiquidSoap.php:290 | the file text of consecutive non-empty parts of the script is their texts with one newline between them |
| Script.ScriptPorts | app/src/AzuraCast/Radio/Backend/LiquidSoap.php:34-157 | the script opens the command server (line 34) on the port `command()` dials and the live input (line 157) on the stream port, and the two ports differ |
| Script.RandomSourceBoundEarlier | app/src/AzuraCast/Radio/Backend/LiquidSoap.php:114-135 | the k-th variable the random composition draws from is the name bound by the binding statement of the k-th default-type source, and that binding comes earlier in the script |
| Script.RandomSourceSize | app/src/AzuraCast/Radio/Backend/LiquidSoap.php:125-135 | the random composition lists exactly as many weights and as many variables as there are default-type sources |
| Script.CrossfadePlacement | app/src/AzuraCast/Radio/Backend/LiquidSoap.php:165-180 | the tail opens with the crossfade heading exactly when the setting is positive, and its statement fades over the setting's seconds |
| Script.OutputsFollowMounts | app/src/AzuraCast/Radio/Backend/LiquidSoap.php:242-286 | the outbound section has exactly one output per AutoDJ mount, in mount order, numbered by the mount's 1-based position in the full list |
| Script.RandomSourceNonEmpty | app/src/AzuraCast/Radio/Backend/LiquidSoap.php:94-135 | the random composition is non-empty exactly when the station has an enabled default playlist or the created playlist has type `default` |

## Left out

- Sockets and files are not modelled. `stream_socket_client`, `fwrite`, `fgets`, `file_put_contents` and `unlink` are I/O; `Write` returns the deletions and writes as data, and `command()` is reduced to its endpoint, its payload and the trimming of the values `fgets` returned. The connection-failure exception, the 20-second connect timeout and the 1024-byte `fgets` limit are left out.
- Persisting the created default playlist (`persist`, `flush`) is left out. The record it persists is returned.
- The entity constructor `new StationPlaylist($station)` is not part of this model. The record it builds is the `newPlaylist` parameter, whose name `write()` sets to `default`.
- Playlist export (`export('m3u', true)`) is not part of this model. Its text is the playlist's `m3u` field.
- Logging and translation of the two messages, the `info` one for the created playlist and the `error` one for a remote frontend, are left out.
- `_getTime` is left out. It reads the system and application clocks and time zones and is not called by `write()`.
- `getCommand` and `getBinary` are left out. They inspect the file system for the engine binary.
- `skip()` is not modelled separately. It is `command('radio_out_1.skip')`; `Outputs.FirstOutputExists` states when that output exists.
- `read()` is left out because its body is empty.
- Script.CrossfadeSeconds: the `(int)` cast of a non-integer setting is not modelled, because the setting is an integer in the model.
- Script.StartNext: PHP computes `round(c * 1.5)` in floating point and prints the float with 14 significant digits, followed by `.`. The model prints the exact integer rounding. The two agree while round(1.5c) < 10^14; from 10^14 on PHP writes exponent notation such as `1.0E+14`. Only positive settings reach it, and the model covers only those.
- Outputs.EffectiveBitrate: the `(int)` cast of a non-integer bitrate is not modelled, because the bitrate is an integer in the model.
- Text.ToLower: `strtolower` is modelled on ASCII letters only.
- Strings are sequences of characters, with one character for each byte of the PHP string.
- Script.RandomSourceBoundEarlier and Script.OutputsFollowMounts are stated for any source list, output flavour and base URL rather than through `Write`. `Write` fixes those three inputs from the station and the environment, as `Script.Assemble` shows.
- Commands.ResponseLines: `command()` reads until `feof` reports the end of the stream. `feof` on a socket also reports a closed peer, so a final `fgets` that fails can add an empty entry. The values `fgets` returned are an input, and a failed read becomes `""`.
- Playlists.SelectPlaylists: `write()` sets only the created playlist's name. Its short name and every other field come from the `newPlaylist` record unchanged; the entity layer's derivation of a short name from the name is not part of this model.
