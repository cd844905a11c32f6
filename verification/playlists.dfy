/** Playlist selection and materialisation in `write()`: which playlists become
    script sources, the fallback default playlist, the track-list files, and the
    weighted `random(...)` composition over the default-type playlists. */
module Playlists {
  import opened Text
  import opened StationModel

  /** The enabled playlists, in station order. */
  function Enabled(ps: seq<Playlist>): (r: seq<Playlist>)
    ensures |r| <= |ps|
    ensures forall p :: p in r <==> p in ps && p.isEnabled
  {
    if |ps| == 0 then []
    else
      var n := |ps| - 1;
      assert ps == ps[..n] + [ps[n]];
      Enabled(ps[..n]) + (if ps[n].isEnabled then [ps[n]] else [])
  }

  /** Reference description of the same filter: the positions of the enabled
      playlists, in increasing order. */
  function EnabledPositions(ps: seq<Playlist>): (ix: seq<nat>)
    ensures forall k :: 0 <= k < |ix| ==> ix[k] < |ps| && ps[ix[k]].isEnabled
    ensures forall k, l :: 0 <= k < l < |ix| ==> ix[k] < ix[l]
  {
    if |ps| == 0 then []
    else
      var n := |ps| - 1;
      var prev := EnabledPositions(ps[..n]);
      assert forall k :: 0 <= k < |prev| ==> ps[..n][prev[k]] == ps[prev[k]];
      if ps[n].isEnabled then prev + [n] else prev
  }

  /** No enabled playlist is missed. */
  lemma {:induction false} EnabledPositionsComplete(ps: seq<Playlist>, j: nat)
    requires j < |ps| && ps[j].isEnabled
    ensures j in EnabledPositions(ps)
    decreases |ps|
  {
    var n := |ps| - 1;
    if j < n {
      EnabledPositionsComplete(ps[..n], j);
    }
  }

  /** The filter keeps the enabled playlists in their station order: its k-th
      element is the playlist at the k-th enabled position. */
  lemma {:induction false} EnabledInOrder(ps: seq<Playlist>)
    ensures |Enabled(ps)| == |EnabledPositions(ps)|
    ensures forall k :: 0 <= k < |EnabledPositions(ps)| ==> Enabled(ps)[k] == ps[EnabledPositions(ps)[k]]
    decreases |ps|
  {
    if |ps| > 0 {
      EnabledInOrder(ps[..|ps| - 1]);
      FilterStep(ps);
      AlignedStep(ps, Enabled(ps[..|ps| - 1]), EnabledPositions(ps[..|ps| - 1]), ps[|ps| - 1].isEnabled, Enabled(ps), EnabledPositions(ps));
    }
  }

  /** Both filters take their last step on the same element. */
  lemma FilterStep(ps: seq<Playlist>)
    requires |ps| > 0
    ensures Enabled(ps) == Enabled(ps[..|ps| - 1]) + (if ps[|ps| - 1].isEnabled then [ps[|ps| - 1]] else [])
    ensures EnabledPositions(ps) == if ps[|ps| - 1].isEnabled then EnabledPositions(ps[..|ps| - 1]) + [|ps| - 1] else EnabledPositions(ps[..|ps| - 1])
  {
  }

  /** One step of an order-preserving filter: if the kept elements so far are
      the elements at the kept positions, this stays so when the last element
      is kept or dropped. */
  lemma AlignedStep(ps: seq<Playlist>, prev: seq<Playlist>, ix: seq<nat>, keep: bool, r: seq<Playlist>, jx: seq<nat>)
    requires |ps| > 0 && |prev| == |ix|
    requires forall k :: 0 <= k < |ix| ==> ix[k] < |ps| - 1 && prev[k] == ps[..|ps| - 1][ix[k]]
    requires r == prev + (if keep then [ps[|ps| - 1]] else [])
    requires jx == if keep then ix + [|ps| - 1] else ix
    ensures |r| == |jx|
    ensures forall k :: 0 <= k < |jx| ==> r[k] == ps[jx[k]]
  {
  }

  predicate HasEnabledDefault(ps: seq<Playlist>) {
    exists i :: 0 <= i < |ps| && ps[i].isEnabled && IsDefaultType(ps[i])
  }

  /** The playlists that get a script source, and the playlist created (and
      persisted) when the station had no enabled default playlist. */
  datatype Selection = Selection(sources: seq<Playlist>, created: Option<Playlist>)

  function SelectPlaylists(ps: seq<Playlist>, newPlaylist: Playlist): (s: Selection)
    ensures s.created.Some? <==> !HasEnabledDefault(ps)
    ensures |s.sources| == |Enabled(ps)| + (if s.created.Some? then 1 else 0)
    ensures s.sources[..|Enabled(ps)|] == Enabled(ps)
    ensures s.created.Some? ==> s.sources[|s.sources| - 1] == s.created.value
    ensures s.created.Some? ==> s.created.value.name == "default"
    ensures s.created.Some? ==> s.created.value == newPlaylist.(name := "default")
    ensures forall p :: p in s.sources ==> p.isEnabled || s.created == Some(p)
  {
    if HasEnabledDefault(ps) then Selection(Enabled(ps), None)
    else
      var created := newPlaylist.(name := "default");
      assert (Enabled(ps) + [created])[..|Enabled(ps)|] == Enabled(ps);
      Selection(Enabled(ps) + [created], Some(created))
  }

  /** After selection some source has the default type exactly when the station
      had an enabled default playlist or the playlist created on demand is of
      the default type. */
  lemma SelectionHasDefault(ps: seq<Playlist>, newPlaylist: Playlist)
    ensures (exists j :: 0 <= j < |SelectPlaylists(ps, newPlaylist).sources|
                         && IsDefaultType(SelectPlaylists(ps, newPlaylist).sources[j]))
            <==> HasEnabledDefault(ps) || IsDefaultType(newPlaylist)
  {
    var s := SelectPlaylists(ps, newPlaylist);
    if HasEnabledDefault(ps) {
      var i :| 0 <= i < |ps| && ps[i].isEnabled && IsDefaultType(ps[i]);
      assert ps[i] in Enabled(ps);
      var j :| 0 <= j < |Enabled(ps)| && Enabled(ps)[j] == ps[i];
      assert s.sources[j] == ps[i];
    } else if IsDefaultType(newPlaylist) {
      assert IsDefaultType(s.sources[|s.sources| - 1]);
    } else {
      forall j | 0 <= j < |s.sources|
        ensures !IsDefaultType(s.sources[j])
      {
        var p := s.sources[j];
        assert p in s.sources;
        if p.isEnabled && s.created != Some(p) {
          assert p in Enabled(ps);
          var i :| 0 <= i < |ps| && ps[i] == p;
        }
      }
    }
  }

  // ---------------------------------------------------------------------------
  // Materialisation
  // ---------------------------------------------------------------------------

  /** Script variable bound to a playlist's source. */
  function VarName(p: Playlist): string
  {
    "playlist_" + p.shortName
  }

  function FilePath(dir: string, p: Playlist): string
  {
    dir + "/" + VarName(p) + ".m3u"
  }

  /** The statement that binds a playlist's variable to a file-watching source. */
  function BindingLine(dir: string, p: Playlist): (line: string)
    ensures StartsWith(line, VarName(p) + " = playlist(")
  {
    var head := VarName(p) + " = playlist(";
    var line := head + "reload_mode=\"watch\",\"" + FilePath(dir, p) + "\")";
    assert line[..|head|] == head;
    line
  }

  function BindingLines(dir: string, sources: seq<Playlist>): (r: seq<string>)
    ensures |r| == |sources|
    ensures forall j :: 0 <= j < |sources| ==> r[j] == BindingLine(dir, sources[j])
  {
    seq(|sources|, j requires 0 <= j < |sources| => BindingLine(dir, sources[j]))
  }

  datatype FileWrite = FileWrite(path: string, contents: string)

  /** One track-list file per source, named after the playlist. */
  function PlaylistFiles(dir: string, sources: seq<Playlist>): (r: seq<FileWrite>)
    ensures |r| == |sources|
    ensures forall j :: 0 <= j < |sources| ==> r[j] == FileWrite(FilePath(dir, sources[j]), sources[j].m3u)
  {
    seq(|sources|, j requires 0 <= j < |sources| => FileWrite(FilePath(dir, sources[j]), sources[j].m3u))
  }

  /** The statement bound to the j-th source watches exactly the file written
      for that source. */
  lemma BindingWatchesWrittenFile(dir: string, sources: seq<Playlist>, j: nat)
    requires j < |sources|
    ensures BindingLines(dir, sources)[j]
      == VarName(sources[j]) + " = playlist(reload_mode=\"watch\",\"" + PlaylistFiles(dir, sources)[j].path + "\")"
  {
  }

  /** Within one directory, playlists with different short names never write
      the same file. */
  lemma FilePathInjective(dir: string, p: Playlist, q: Playlist)
    ensures FilePath(dir, p) == FilePath(dir, q) ==> p.shortName == q.shortName
  {
    if FilePath(dir, p) == FilePath(dir, q) {
      var head := dir + "/playlist_";
      assert FilePath(dir, p) == head + p.shortName + ".m3u";
      assert FilePath(dir, q) == head + q.shortName + ".m3u";
      assert |p.shortName| == |q.shortName|;
      assert p.shortName == FilePath(dir, p)[|head|..|head| + |p.shortName|];
      assert q.shortName == FilePath(dir, q)[|head|..|head| + |q.shortName|];
    }
  }

  // ---------------------------------------------------------------------------
  // The weighted random composition
  // ---------------------------------------------------------------------------

  /** Weights and variable names of the default-type sources, accumulated in
      source order as the materialisation loop does. */
  function DefaultSources(sources: seq<Playlist>): (r: (seq<int>, seq<string>))
    ensures |r.0| == |r.1| <= |sources|
  {
    if |sources| == 0 then ([], [])
    else
      var prev := DefaultSources(sources[..|sources| - 1]);
      var p := sources[|sources| - 1];
      if IsDefaultType(p) then (prev.0 + [p.weight], prev.1 + [VarName(p)]) else prev
  }

  /** Reference description of the same selection: the positions of the
      default-type sources, in increasing order. */
  function DefaultIndices(sources: seq<Playlist>): (ix: seq<nat>)
    ensures forall k :: 0 <= k < |ix| ==> ix[k] < |sources| && IsDefaultType(sources[ix[k]])
    ensures forall k, l :: 0 <= k < l < |ix| ==> ix[k] < ix[l]
  {
    if |sources| == 0 then []
    else
      var n := |sources| - 1;
      var prev := DefaultIndices(sources[..n]);
      assert forall k :: 0 <= k < |prev| ==> sources[..n][prev[k]] == sources[prev[k]];
      if IsDefaultType(sources[n]) then prev + [n] else prev
  }

  /** No default-type source is missed. */
  lemma {:induction false} DefaultIndicesComplete(sources: seq<Playlist>, j: nat)
    requires j < |sources| && IsDefaultType(sources[j])
    ensures j in DefaultIndices(sources)
    decreases |sources|
  {
    var n := |sources| - 1;
    if j < n {
      DefaultIndicesComplete(sources[..n], j);
    }
  }

  /** The `random(...)` lists hold exactly the default-type sources, weights and
      names pairwise aligned, in the order the sources were materialised. */
  lemma {:induction false} DefaultSourcesAligned(sources: seq<Playlist>)
    ensures |DefaultSources(sources).0| == |DefaultIndices(sources)|
    ensures forall k :: 0 <= k < |DefaultIndices(sources)| ==>
      DefaultSources(sources).0[k] == sources[DefaultIndices(sources)[k]].weight
      && DefaultSources(sources).1[k] == VarName(sources[DefaultIndices(sources)[k]])
    decreases |sources|
  {
    if |sources| > 0 {
      var n := |sources| - 1;
      var init := sources[..n];
      DefaultSourcesAligned(init);
      var prev := DefaultSources(init);
      var ix := DefaultIndices(init);
      assert forall k :: 0 <= k < |ix| ==> init[ix[k]] == sources[ix[k]];
      var r := DefaultSources(sources);
      var jx := DefaultIndices(sources);
      if IsDefaultType(sources[n]) {
        assert r == (prev.0 + [sources[n].weight], prev.1 + [VarName(sources[n])]);
        assert jx == ix + [n];
        forall k | 0 <= k < |jx|
          ensures r.0[k] == sources[jx[k]].weight && r.1[k] == VarName(sources[jx[k]])
        {
          if k < |ix| {
            assert r.0[k] == prev.0[k] && r.1[k] == prev.1[k] && jx[k] == ix[k];
          }
        }
      } else {
        assert r == prev && jx == ix;
      }
    }
  }

  /** The composition is never empty while some source is of the default type. */
  lemma DefaultSourcesNonEmpty(sources: seq<Playlist>, j: nat)
    requires j < |sources| && IsDefaultType(sources[j])
    ensures |DefaultSources(sources).1| > 0
  {
    DefaultSourcesAligned(sources);
    DefaultIndicesComplete(sources, j);
  }

  /** Without a default-type source both `random(...)` lists stay empty. */
  lemma {:induction false} DefaultSourcesEmpty(sources: seq<Playlist>)
    requires forall j :: 0 <= j < |sources| ==> !IsDefaultType(sources[j])
    ensures DefaultSources(sources) == ([], [])
    decreases |sources|
  {
    if |sources| > 0 {
      DefaultSourcesEmpty(sources[..|sources| - 1]);
    }
  }

  /** `playlists = random(weights=[w1, w2], [playlist_a, playlist_b]);` */
  function RandomLine(weights: seq<int>, vars: seq<string>): (r: string)
    ensures StartsWith(r, "playlists = random(weights=[") && EndsWith(r, "]);")
  {
    "playlists = random(weights=[" + Join(", ", RenderInts(weights)) + "], [" + Join(", ", vars) + "]);"
  }

  function RenderInts(xs: seq<int>): (r: seq<string>)
    ensures |r| == |xs|
    ensures forall k :: 0 <= k < |xs| ==> r[k] == IntToString(xs[k])
  {
    seq(|xs|, k requires 0 <= k < |xs| => IntToString(xs[k]))
  }
}
