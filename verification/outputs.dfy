/** The outbound broadcast section of `write()`: one `output.icecast(...)`
    statement per mount with AutoDJ enabled, with the encoder chosen from the
    mount's format and bitrate and the connection parameters of the frontend type. */
module Outputs {
  import opened Text
  import opened StationModel
  import Sanitize

  /** The two output flavours: Shoutcast 2 and Icecast (the latter also serves
      every frontend type that is neither Shoutcast 2 nor remote). */
  datatype OutputKind = ShoutcastOutput | IcecastOutput

  /** The mount's format, lowered, with a falsy format meaning `mp3`. */
  function NormalizedFormat(format: string): (r: string)
    ensures Falsy(format) ==> r == "mp3"
    ensures !Falsy(format) ==> |r| == |format| && forall i :: 0 <= i < |r| ==> r[i] == LowerChar(format[i])
    ensures forall i :: 0 <= i < |r| ==> !IsUpper(r[i])
  {
    ToLower(if Falsy(format) then "mp3" else format)
  }

  /** Spelling the format in any letter case selects the same encoder. */
  lemma NormalizedFormatIgnoresCase(format: string)
    ensures !Falsy(format) ==> NormalizedFormat(ToLower(format)) == NormalizedFormat(format)
  {
    if !Falsy(format) {
      ToLowerIdempotent(format);
    }
  }

  /** The mount's bitrate, 128 when unset or zero. */
  function EffectiveBitrate(bitrate: int): (r: int)
    ensures r != 0
    ensures bitrate != 0 ==> r == bitrate
    ensures bitrate == 0 ==> r == 128
  {
    if bitrate == 0 then 128 else bitrate
  }

  datatype Codec = Mp3 | Aac | Vorbis

  /** Codec choice by normalised format: `aac` is HE-AAC v2, `ogg` is Vorbis on
      Icecast only, and anything else, `ogg` on Shoutcast 2 included, is MP3. */
  function CodecFor(kind: OutputKind, format: string): (c: Codec)
    ensures c == Aac <==> format == "aac"
    ensures c == Vorbis <==> format == "ogg" && kind == IcecastOutput
    ensures c == Mp3 <==> !(format == "aac") && !(format == "ogg" && kind == IcecastOutput)
  {
    assert "ogg" != "aac" by { assert "ogg"[0] != "aac"[0]; }
    if format == "aac" then Aac
    else if format == "ogg" && kind == IcecastOutput then Vorbis
    else Mp3
  }

  /** The encoder of one output: its codec and bitrate. */
  datatype EncoderSpec = EncoderSpec(codec: Codec, bitrate: int)

  /** The encoder `write()` picks for a mount on the given output type. */
  function MountEncoder(kind: OutputKind, m: Mount): (e: EncoderSpec)
    ensures e.bitrate != 0
    ensures m.autodjBitrate != 0 ==> e.bitrate == m.autodjBitrate
    ensures e.codec == Aac <==> NormalizedFormat(m.autodjFormat) == "aac"
    ensures e.codec == Vorbis <==> kind == IcecastOutput && NormalizedFormat(m.autodjFormat) == "ogg"
  {
    EncoderSpec(CodecFor(kind, NormalizedFormat(m.autodjFormat)), EffectiveBitrate(m.autodjBitrate))
  }

  /** A mount whose format is unset or "0" is encoded as MP3, on either output type. */
  lemma UnsetFormatIsMp3(kind: OutputKind, m: Mount)
    requires Falsy(m.autodjFormat)
    ensures MountEncoder(kind, m).codec == Mp3
  {
    assert "mp3" != "aac" by { assert "mp3"[0] != "aac"[0]; }
    assert "mp3" != "ogg" by { assert "mp3"[0] != "ogg"[0]; }
  }

  /** The engine's name of the encoder; the names differ in their first letter. */
  function EncoderName(c: Codec): (n: string)
    ensures |n| > 0
    ensures c == Mp3 ==> n[0] == 'm'
    ensures c == Aac ==> n[0] == 'f'
    ensures c == Vorbis ==> n[0] == 'v'
  {
    match c
    case Mp3 => "mp3.cbr"
    case Aac => "fdkaac"
    case Vorbis => "vorbis.cbr"
  }

  /** The encoder's arguments. Every encoder takes the bitrate, as a plain
      integer, as its third argument. */
  function EncoderArgs(e: EncoderSpec): (args: seq<string>)
    ensures |args| >= 3 && args[2] == "bitrate=" + IntToString(e.bitrate)
  {
    var bitrate := "bitrate=" + IntToString(e.bitrate);
    match e.codec
    case Mp3 => ["samplerate=44100", "stereo=true", bitrate]
    case Aac => ["channels=2", "samplerate=44100", bitrate, "afterburner=true",
                 "aot=\"mpeg4_he_aac_v2\"", "transmux=\"adts\"", "sbr_mode=true"]
    case Vorbis => ["samplerate=44100", "channels=2", bitrate]
  }

  /** The MP3 encoder's arguments are written without spaces. */
  function ArgSeparator(c: Codec): string
  {
    if c == Mp3 then "," else ", "
  }

  /** The encoder expression `%name(arguments)`; the letter after the `%`
      names the encoder. */
  function RenderEncoder(e: EncoderSpec): (r: string)
    ensures |r| > 1 && r[0] == '%' && r[1] == EncoderName(e.codec)[0]
    ensures StartsWith(r, "%" + EncoderName(e.codec) + "(")
    ensures r[|r| - 1] == ')'
  {
    var h := "%" + EncoderName(e.codec) + "(";
    var r := h + Join(ArgSeparator(e.codec), EncoderArgs(e)) + ")";
    assert r[..|h|] == h;
    r
  }

  /** The bitrate reaches the encoder expression as an integer: the text opens
      with the encoder name and the two arguments before it, then `bitrate=<n>`. */
  lemma RenderEncoderCarriesBitrate(e: EncoderSpec)
    ensures var args := EncoderArgs(e);
            var sep := ArgSeparator(e.codec);
            StartsWith(RenderEncoder(e),
                       "%" + EncoderName(e.codec) + "(" + (args[0] + sep + args[1] + sep + ("bitrate=" + IntToString(e.bitrate))))
  {
    var args := EncoderArgs(e);
    var sep := ArgSeparator(e.codec);
    JoinOpensThree(sep, args);
    WrapKeepsEnds("%" + EncoderName(e.codec) + "(", Join(sep, args), ")", args[0] + sep + args[1] + sep + args[2], "");
  }

  /** The codec can be read back from the rendered encoder: different codecs
      never render alike. */
  lemma RenderEncoderCodec(e1: EncoderSpec, e2: EncoderSpec)
    ensures RenderEncoder(e1) == RenderEncoder(e2) ==> e1.codec == e2.codec
  {
  }

  // ---------------------------------------------------------------------------
  // Output statements
  // ---------------------------------------------------------------------------

  /** `radio_out_<index>`: the engine-side identifier of an output. */
  function OutputId(index: nat): string
  {
    "radio_out_" + NatToString(index)
  }

  lemma OutputIdInjective(a: nat, b: nat)
    ensures OutputId(a) == OutputId(b) ==> a == b
  {
    if OutputId(a) == OutputId(b) {
      assert NatToString(a) == OutputId(a)[10..];
      assert NatToString(b) == OutputId(b)[10..];
      NatToStringInjective(a, b);
    }
  }

  /** The station URL, or the site's base URL when the station has none. */
  function PublicUrl(st: Station, baseUrl: string): string
  {
    if Falsy(st.url) then baseUrl else st.url
  }

  /** The source password sent for the mount at position `index`: Shoutcast 2
      tells mounts sharing one port apart by the suffix `:#index`, Icecast sends
      the password unchanged. */
  function SourcePassword(kind: OutputKind, password: string, index: nat): (r: string)
    ensures kind == ShoutcastOutput ==> |r| > |password| && r[..|password|] == password
                                        && r[|password|..] == ":#" + NatToString(index)
    ensures kind == IcecastOutput ==> r == password
  {
    match kind
    case ShoutcastOutput =>
      var r := password + ":#" + NatToString(index);
      assert r[..|password|] == password;
      r
    case IcecastOutput => password
  }

  /** Everything one output statement says, before it is rendered as text. */
  datatype OutputTarget = OutputTarget(
    kind: OutputKind,
    encoder: EncoderSpec,
    index: nat,
    port: int,
    password: string,
    name: string,
    description: string,
    url: string,
    mount: string,
    isPublic: bool)

  /** The output for the mount at 1-based position `index` of the station's
      mount list. Free-text station fields are sanitised, so none of them can
      break out of the double-quoted literal it is written into. */
  function Target(kind: OutputKind, st: Station, baseUrl: string, m: Mount, index: nat): (t: OutputTarget)
    ensures t.kind == kind && t.index == index && t.encoder == MountEncoder(kind, m)
    ensures t.port == st.frontend.port && t.mount == m.name && t.isPublic == m.isPublic
    ensures t.password == SourcePassword(kind, st.frontend.sourcePassword, index)
    ensures Sanitize.SafeLiteral(t.name) && Sanitize.SafeLiteral(t.description) && Sanitize.SafeLiteral(t.url)
    ensures t.name == Sanitize.CleanSpec(st.name) && t.description == Sanitize.CleanSpec(st.description)
    ensures t.url == Sanitize.CleanSpec(PublicUrl(st, baseUrl))
  {
    OutputTarget(kind, MountEncoder(kind, m), index, st.frontend.port,
                 SourcePassword(kind, st.frontend.sourcePassword, index),
                 Sanitize.CleanUpString(st.name), Sanitize.CleanUpString(st.description),
                 Sanitize.CleanUpString(PublicUrl(st, baseUrl)), m.name, m.isPublic)
  }

  function Quoted(key: string, text: string): string
  {
    key + " = \"" + text + "\""
  }

  /** One parameter of an output statement. */
  datatype Param =
    | EncoderParam(encoder: EncoderSpec)
    | IdParam(index: nat)
    | HostParam
    | PortParam(port: int)
    | PasswordParam(password: string)
    | NameParam(name: string)
    | DescriptionParam(description: string)
    | UrlParam(url: string)
    | MountParam(mount: string)
    | PublicParam(isPublic: bool)
    | ProtocolParam
    | EncodingParam
    | SourceParam

  /** The Icecast parameter list: encoder, output id, host, port, password,
      station name, description and URL, mount, visibility, encoding, and the
      source `radio`. */
  function IcecastParams(t: OutputTarget): (r: seq<Param>)
    ensures |r| == 12
    ensures r[0] == EncoderParam(t.encoder) && r[1] == IdParam(t.index) && r[4] == PasswordParam(t.password)
    ensures r[2] == HostParam && r[3] == PortParam(t.port)
    ensures r[5] == NameParam(t.name) && r[6] == DescriptionParam(t.description)
    ensures r[7] == UrlParam(t.url) && r[8] == MountParam(t.mount)
    ensures r[9] == PublicParam(t.isPublic) && r[10] == EncodingParam && r[11] == SourceParam
  {
    [ EncoderParam(t.encoder), IdParam(t.index), HostParam, PortParam(t.port), PasswordParam(t.password),
      NameParam(t.name), DescriptionParam(t.description), UrlParam(t.url), MountParam(t.mount),
      PublicParam(t.isPublic), EncodingParam, SourceParam ]
  }

  /** The parameters of the statement. Icecast takes the list above. Shoutcast 2
      takes the same list without the description and the mount, and with the
      ICY protocol before the encoding. */
  function OutputParams(t: OutputTarget): (r: seq<Param>)
    ensures t.kind == IcecastOutput ==> r == IcecastParams(t)
    ensures t.kind == ShoutcastOutput ==>
      var ice := IcecastParams(t);
      r == ice[..6] + [ice[7], ice[9], ProtocolParam, ice[10], ice[11]]
    ensures |r| >= 3 && r[0] == EncoderParam(t.encoder) && r[1] == IdParam(t.index) && r[|r| - 1] == SourceParam
  {
    match t.kind
    case IcecastOutput => IcecastParams(t)
    case ShoutcastOutput =>
      var ice := IcecastParams(t);
      ice[..6] + [ice[7], ice[9], ProtocolParam, ice[10], ice[11]]
  }

  /** A Shoutcast 2 statement has neither a description nor a mount parameter. */
  lemma ShoutcastOmitsDescriptionAndMount(t: OutputTarget)
    requires t.kind == ShoutcastOutput
    ensures forall i :: 0 <= i < |OutputParams(t)| ==>
      !OutputParams(t)[i].DescriptionParam? && !OutputParams(t)[i].MountParam?
  {
    var r := OutputParams(t);
    var ice := IcecastParams(t);
    forall i | 0 <= i < |r|
      ensures !r[i].DescriptionParam? && !r[i].MountParam?
    {
      if i < 6 {
        assert r[i] == ice[i];
      }
    }
  }

  /** The statement for a mount carries the station's cleaned name and URL on
      either output type, and its cleaned description on Icecast only. */
  lemma OutputCarriesStationText(kind: OutputKind, st: Station, baseUrl: string, m: Mount, index: nat)
    ensures var ps := OutputParams(Target(kind, st, baseUrl, m, index));
            NameParam(Sanitize.CleanSpec(st.name)) in ps
            && UrlParam(Sanitize.CleanSpec(PublicUrl(st, baseUrl))) in ps
            && (DescriptionParam(Sanitize.CleanSpec(st.description)) in ps <==> kind == IcecastOutput)
  {
    var t := Target(kind, st, baseUrl, m, index);
    var ps := OutputParams(t);
    var ice := IcecastParams(t);
    assert ps[5] == ice[5];
    if kind == IcecastOutput {
      assert ps[6] == DescriptionParam(t.description) && ps[7] == UrlParam(t.url);
    } else {
      assert ps[6] == ice[7];
      ShoutcastOmitsDescriptionAndMount(t);
    }
  }

  /** The text of one parameter. */
  function RenderParam(p: Param): string
  {
    match p
    case EncoderParam(e) => RenderEncoder(e)
    case IdParam(i) => "id=\"" + OutputId(i) + "\""
    case HostParam => "host = \"127.0.0.1\""
    case PortParam(port) => "port = " + IntToString(port)
    case PasswordParam(password) => Quoted("password", password)
    case NameParam(name) => Quoted("name", name)
    case DescriptionParam(description) => Quoted("description", description)
    case UrlParam(url) => Quoted("url", url)
    case MountParam(mount) => Quoted("mount", mount)
    case PublicParam(b) => "public = " + (if b then "true" else "false")
    case ProtocolParam => "protocol=\"icy\""
    case EncodingParam => "encoding = \"UTF-8\""
    case SourceParam => "radio"
  }

  /** `output.icecast(...)` with the rendered parameters separated by commas. */
  function RenderOutput(t: OutputTarget): string
  {
    "output.icecast(" + Join(", ", MapSeq(OutputParams(t), RenderParam)) + ")"
  }

  /** Every output statement names its encoder first and its id second, and
      hands over the source `radio` last. */
  lemma RenderOutputShape(t: OutputTarget)
    ensures StartsWith(RenderOutput(t), "output.icecast(" + (RenderEncoder(t.encoder) + ", " + RenderParam(IdParam(t.index)) + ", "))
    ensures EndsWith(RenderOutput(t), ", " + "radio" + ")")
  {
    var ps := MapSeq(OutputParams(t), RenderParam);
    RenderedParamsEnds(t);
    JoinEnds(", ", ps);
    WrapKeepsEnds("output.icecast(", Join(", ", ps), ")", ps[0] + ", " + ps[1] + ", ", ", " + ps[|ps| - 1]);
  }

  lemma RenderedParamsEnds(t: OutputTarget)
    ensures var ps := MapSeq(OutputParams(t), RenderParam);
            |ps| >= 3 && ps[0] == RenderEncoder(t.encoder) && ps[1] == RenderParam(IdParam(t.index))
            && ps[|ps| - 1] == "radio"
  {
    RenderedFirstParams(t);
    RenderedLastParam(t);
  }

  lemma RenderedFirstParams(t: OutputTarget)
    ensures var ps := MapSeq(OutputParams(t), RenderParam);
            |ps| >= 3 && ps[0] == RenderParam(EncoderParam(t.encoder)) && ps[1] == RenderParam(IdParam(t.index))
  {
    var qs := OutputParams(t);
    assert qs[0] == EncoderParam(t.encoder) && qs[1] == IdParam(t.index);
  }

  lemma RenderedLastParam(t: OutputTarget)
    ensures var ps := MapSeq(OutputParams(t), RenderParam);
            |ps| >= 3 && ps[|ps| - 1] == RenderParam(SourceParam)
  {
    var qs := OutputParams(t);
    assert qs[|qs| - 1] == SourceParam;
  }

  /** Indices (0-based) of the mounts with AutoDJ enabled, in increasing order. */
  function EnabledIndices(mounts: seq<Mount>): (ix: seq<nat>)
    ensures forall k :: 0 <= k < |ix| ==> ix[k] < |mounts| && mounts[ix[k]].enableAutodj
    ensures forall k, l :: 0 <= k < l < |ix| ==> ix[k] < ix[l]
  {
    if |mounts| == 0 then []
    else
      var n := |mounts| - 1;
      var prev := EnabledIndices(mounts[..n]);
      assert forall k :: 0 <= k < |prev| ==> mounts[..n][prev[k]] == mounts[prev[k]];
      if mounts[n].enableAutodj then prev + [n] else prev
  }

  /** No AutoDJ mount is missed. */
  lemma {:induction false} EnabledIndicesComplete(mounts: seq<Mount>, q: nat)
    requires q < |mounts| && mounts[q].enableAutodj
    ensures q in EnabledIndices(mounts)
    decreases |mounts|
  {
    var n := |mounts| - 1;
    if q < n {
      EnabledIndicesComplete(mounts[..n], q);
    }
  }

  /** The mounts that get an output, each with the value of the loop counter
      when it is reached: the counter advances for every mount, disabled ones
      included, so it is the mount's 1-based position in the full list. */
  function NumberedMounts(mounts: seq<Mount>): seq<(nat, Mount)>
  {
    if |mounts| == 0 then []
    else
      var n := |mounts| - 1;
      var i := n + 1;
      var prev := NumberedMounts(mounts[..n]);
      if !mounts[n].enableAutodj then prev else prev + [(i, mounts[n])]
  }

  /** Exactly one entry per AutoDJ mount, in mount order, numbered by that
      mount's 1-based position in the full list. */
  lemma {:induction false} NumberedMountsPerMount(mounts: seq<Mount>)
    ensures |NumberedMounts(mounts)| == |EnabledIndices(mounts)|
    ensures forall k :: 0 <= k < |EnabledIndices(mounts)| ==>
      NumberedMounts(mounts)[k] == (EnabledIndices(mounts)[k] + 1, mounts[EnabledIndices(mounts)[k]])
    decreases |mounts|
  {
    if |mounts| > 0 {
      var n := |mounts| - 1;
      var init := mounts[..n];
      NumberedMountsPerMount(init);
      var prev := NumberedMounts(init);
      var ix := EnabledIndices(init);
      forall k | 0 <= k < |ix|
        ensures prev[k] == (ix[k] + 1, mounts[ix[k]])
      {
        assert init[ix[k]] == mounts[ix[k]];
      }
      if mounts[n].enableAutodj {
        AppendStep(prev, ix, mounts, n);
      }
    }
  }

  lemma AppendStep(prev: seq<(nat, Mount)>, ix: seq<nat>, mounts: seq<Mount>, n: nat)
    requires n < |mounts| && |prev| == |ix|
    requires forall k :: 0 <= k < |ix| ==> ix[k] < |mounts| && prev[k] == (ix[k] + 1, mounts[ix[k]])
    ensures forall k :: 0 <= k < |ix| + 1 ==>
      (prev + [(n + 1, mounts[n])])[k] == ((ix + [n])[k] + 1, mounts[(ix + [n])[k]])
  {
  }

  /** The outputs of the outbound section, one per numbered mount. */
  function MountTargets(kind: OutputKind, st: Station, baseUrl: string, mounts: seq<Mount>): (r: seq<OutputTarget>)
    ensures |r| == |NumberedMounts(mounts)|
    ensures forall k :: 0 <= k < |r| ==>
      r[k] == Target(kind, st, baseUrl, NumberedMounts(mounts)[k].1, NumberedMounts(mounts)[k].0)
  {
    var nm := NumberedMounts(mounts);
    seq(|nm|, k requires 0 <= k < |nm| => Target(kind, st, baseUrl, nm[k].1, nm[k].0))
  }

  /** The outbound section in terms of the mount list: one output per AutoDJ
      mount, in mount order, numbered by the mount's 1-based position. */
  lemma MountTargetsPerMount(kind: OutputKind, st: Station, baseUrl: string, mounts: seq<Mount>)
    ensures var ts := MountTargets(kind, st, baseUrl, mounts);
            var ix := EnabledIndices(mounts);
            |ts| == |ix|
            && forall k :: 0 <= k < |ix| ==> ts[k] == Target(kind, st, baseUrl, mounts[ix[k]], ix[k] + 1)
  {
    NumberedMountsPerMount(mounts);
  }

  /** A station without a URL of its own advertises the base URL, unchanged
      when it has nothing to clean. */
  lemma UrlFallback(kind: OutputKind, st: Station, baseUrl: string, mounts: seq<Mount>, k: nat)
    requires Falsy(st.url) && Sanitize.SafeLiteral(baseUrl)
    requires k < |EnabledIndices(mounts)|
    ensures k < |MountTargets(kind, st, baseUrl, mounts)|
    ensures MountTargets(kind, st, baseUrl, mounts)[k].url == baseUrl
  {
    MountTargetsPerMount(kind, st, baseUrl, mounts);
    Sanitize.CleanUpFixesSafe(baseUrl);
  }

  /** Outputs of different mounts never share an id. */
  lemma OutputIdsDistinct(mounts: seq<Mount>, j: nat, k: nat)
    requires j < k < |NumberedMounts(mounts)|
    ensures OutputId(NumberedMounts(mounts)[j].0) != OutputId(NumberedMounts(mounts)[k].0)
  {
    NumberedMountsPerMount(mounts);
    OutputIdInjective(NumberedMounts(mounts)[j].0, NumberedMounts(mounts)[k].0);
  }

  /** `radio_out_1`, the output `skip()` addresses, exists exactly when the
      first mount has AutoDJ enabled: a disabled mount still uses up its number. */
  lemma FirstOutputExists(mounts: seq<Mount>)
    ensures (exists k :: 0 <= k < |NumberedMounts(mounts)| && NumberedMounts(mounts)[k].0 == 1)
            <==> (|mounts| > 0 && mounts[0].enableAutodj)
  {
    NumberedMountsPerMount(mounts);
    var nm := NumberedMounts(mounts);
    var ix := EnabledIndices(mounts);
    if |mounts| > 0 && mounts[0].enableAutodj {
      EnabledIndicesComplete(mounts, 0);
      var k :| 0 <= k < |ix| && ix[k] == 0;
      assert nm[k].0 == 1;
    }
    if exists k :: 0 <= k < |nm| && nm[k].0 == 1 {
      var k :| 0 <= k < |nm| && nm[k].0 == 1;
      assert ix[k] == 0;
    }
  }
}
