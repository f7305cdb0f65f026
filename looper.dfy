/** `AudioLooperUi`: the player's state outside its widgets. It holds the
    loaded buffer with its layout and play-head, the playlist with its
    current index, the names of the saved playlists, and the text of the
    configuration file the playlists are saved to. The file system and the
    sound-file library are a function from a path to what the library
    reports about that file. */
module Looper {
  import opened Common
  import opened Text
  import opened Formats
  import opened Playlist
  import opened Audio

  /** The fields `read_soundfile` sets. */
  datatype LoadState = LoadState(
    buffer: array?<real>,
    channels: uint32,
    samplesize: uint32,
    samplerate: uint32,
    position: uint32,
    loadNew: bool,
    ready: bool)

  /** The load state `read_soundfile` leaves for a load outcome: `ready`
      exactly when the early checks passed, the layout the load reports,
      no frames when no buffer is left, and the play-head at the end of the
      buffer when playing backwards, at its start otherwise. */
  predicate LoadedState(s: LoadState, contents: seq<real>, o: Outcome, backwards: bool) {
    s.ready == o.admitted && s.loadNew &&
    s.channels == o.channels && s.samplerate == o.samplerate &&
    (if o.samples.None? then s.buffer == null && s.samplesize == 0
     else s.buffer != null && contents == o.samples.value && s.samplesize == o.samplesize) &&
    s.position == (if s.ready && backwards then s.samplesize else 0)
  }

  /** The index `loadFromPlayList` moves to: one up, through a 32-bit
      counter, and back to 0 once it reaches the end of the list. */
  function NextIndex(cur: uint32, size: nat): (r: uint32)
    ensures size > 0 ==> r < size
    ensures cur + 1 >= size ==> r == 0
    ensures cur + 1 < size && cur + 1 < 0x1_0000_0000 ==> r == cur + 1
  {
    var n := U32(cur + 1);
    if n >= size then 0 else n
  }

  /** Whether `loadFromPlayList` moves on at all: a reload is forced, or the
      playlist is in use and holds two entries or more. */
  predicate Advances(size: nat, usePlayList: bool, forceReload: bool) {
    forceReload || (size >= 2 && usePlayList)
  }

  /** The index after `k` advances from `cur`. */
  function AdvanceBy(cur: uint32, size: nat, k: nat): uint32 {
    if k == 0 then cur else NextIndex(AdvanceBy(cur, size, k - 1), size)
  }

  /** Advances compose: `a` advances followed by `b` more are `a + b`. */
  lemma {:induction false} AdvanceAdd(cur: uint32, size: nat, a: nat, b: nat)
    ensures AdvanceBy(cur, size, a + b) == AdvanceBy(AdvanceBy(cur, size, a), size, b)
  {
    if b > 0 {
      AdvanceAdd(cur, size, a, b - 1);
    }
  }

  /** Advancing from an entry steps through the entries after it in order,
      reaching the first one when it passes the end. */
  lemma {:induction false} AdvanceInOrder(cur: uint32, size: nat, k: nat)
    requires cur < size <= 0x1_0000_0000
    requires cur + k <= size
    ensures AdvanceBy(cur, size, k) == if cur + k == size then 0 else cur + k
  {
    if k > 0 {
      AdvanceInOrder(cur, size, k - 1);
    }
  }

  /** After as many advances as there are entries the index is back where
      it started: every entry is visited once per round. */
  lemma AdvanceFullRound(cur: uint32, size: nat)
    requires cur < size <= 0x1_0000_0000
    ensures AdvanceBy(cur, size, size) == cur
    ensures forall k :: 0 < k < size ==> AdvanceBy(cur, size, k) != cur
  {
    AdvanceBack(cur, size);
    forall k | 0 < k < size
      ensures AdvanceBy(cur, size, k) != cur
    {
      AdvanceMoves(cur, size, k);
    }
  }

  lemma AdvanceBack(cur: uint32, size: nat)
    requires cur < size <= 0x1_0000_0000
    ensures AdvanceBy(cur, size, size) == cur
  {
    var toEnd := size - cur;
    AdvanceInOrder(cur, size, toEnd);
    AdvanceAdd(cur, size, toEnd, cur);
    assert toEnd + cur == size;
    AdvanceInOrder(0, size, cur);
  }

  lemma AdvanceMoves(cur: uint32, size: nat, k: nat)
    requires cur < size <= 0x1_0000_0000 && 0 < k < size
    ensures AdvanceBy(cur, size, k) != cur
  {
    if cur + k <= size {
      AdvanceInOrder(cur, size, k);
    } else {
      AdvanceInOrder(cur, size, size - cur);
      AdvanceAdd(cur, size, size - cur, k - (size - cur));
      AdvanceInOrder(0, size, k - (size - cur));
    }
  }

  /** `PlayList.size()-1` stored in a `uint32_t`: an empty list gives the
      largest value. */
  function SizeMinusOne(size: nat): (r: uint32)
    ensures 0 < size <= 0x1_0000_0000 ==> r == size - 1
    ensures size == 0 ==> r == MaxUint32
  {
    if size == 0 then MaxUint32 else U32(size - 1)
  }

  /** An index set to the last entry moves to the first on the next
      advance, an empty list included. */
  lemma LastWrapsToFirst(size: nat)
    requires size <= 0x1_0000_0000
    ensures NextIndex(SizeMinusOne(size), size) == 0
  {
  }

  /** The guard of `down_entry_callback` as written: it returns early only
      when the index is past the last entry. */
  predicate DownStopsAsWritten(down: int, size: nat)
    requires size > 0
  {
    down > size - 1
  }

  /** The last entry passes the guard as written, and the swap it reaches
      then names the slot one past the end. */
  lemma DownGuardLetsLastThrough(size: nat)
    requires size > 0
    ensures !DownStopsAsWritten(size - 1, size)
    ensures !(size - 1 + 1 < size)
  {
  }

  /** The guard the swap needs: it returns early unless both `down` and
      `down + 1` are entries. */
  predicate DownStops(down: int, size: nat) {
    down + 1 >= size
  }

  /** The index of the first token `accepts` holds for. */
  function FirstAccepted(toks: seq<string>, accepts: string -> bool): (r: Option<nat>)
    ensures r.Some? ==> r.value < |toks| && accepts(toks[r.value])
    ensures r.Some? ==> forall j :: 0 <= j < r.value ==> !accepts(toks[j])
    ensures r.None? ==> forall j :: 0 <= j < |toks| ==> !accepts(toks[j])
  {
    if toks == [] then None
    else if accepts(toks[0]) then Some(0)
    else match FirstAccepted(toks[1..], accepts)
      case None => None
      case Some(i) => Some(i + 1)
  }

  /** The first index `accepts` holds for is the one `FirstAccepted` finds. */
  lemma {:induction false} FirstAcceptedAt(toks: seq<string>, accepts: string -> bool, i: nat)
    requires i < |toks| && accepts(toks[i])
    requires forall j :: 0 <= j < i ==> !accepts(toks[j])
    ensures FirstAccepted(toks, accepts) == Some(i)
  {
    if i > 0 {
      FirstAcceptedAt(toks[1..], accepts, i - 1);
    }
  }

  /** The tokens `accepts` holds for, in order. */
  function Accepted(toks: seq<string>, accepts: string -> bool): (r: seq<string>)
    ensures |r| <= |toks|
    ensures forall k :: 0 <= k < |r| ==> r[k] in toks && accepts(r[k])
  {
    if toks == [] then []
    else
      Accepted(toks[..|toks| - 1], accepts) +
      (if accepts(toks[|toks| - 1]) then [toks[|toks| - 1]] else [])
  }

  /** Every accepted token of the drop is kept. */
  lemma {:induction false} AcceptedKeepsAll(toks: seq<string>, accepts: string -> bool)
    ensures forall k :: 0 <= k < |toks| && accepts(toks[k]) ==> toks[k] in Accepted(toks, accepts)
  {
    if toks != [] {
      var init, last := toks[..|toks| - 1], toks[|toks| - 1];
      var r := Accepted(toks, accepts);
      AcceptedKeepsAll(init, accepts);
      assert r == Accepted(init, accepts) + (if accepts(last) then [last] else []);
      forall k | 0 <= k < |toks| && accepts(toks[k]) ensures toks[k] in r {
        if k < |init| {
          assert toks[k] == init[k];
          assert toks[k] in Accepted(init, accepts);
        }
      }
    }
  }

  /** Every token is kept exactly when every token is accepted. */
  lemma {:induction false} AcceptedAll(toks: seq<string>, accepts: string -> bool)
    ensures |Accepted(toks, accepts)| == |toks| <==> forall k :: 0 <= k < |toks| ==> accepts(toks[k])
  {
    if toks != [] {
      var init, last := toks[..|toks| - 1], toks[|toks| - 1];
      AcceptedAll(init, accepts);
      assert Accepted(toks, accepts) == Accepted(init, accepts) + (if accepts(last) then [last] else []);
      assert forall k :: 0 <= k < |init| ==> toks[k] == init[k];
    }
  }

  /** Filtering a drop made of two parts filters each part in turn: the
      accepted tokens keep their order and their repeats. */
  lemma {:induction false} AcceptedAppend(a: seq<string>, b: seq<string>, accepts: string -> bool)
    ensures Accepted(a + b, accepts) == Accepted(a, accepts) + Accepted(b, accepts)
    decreases |b|
  {
    if b == [] {
      assert a + b == a;
    } else {
      var init := b[..|b| - 1];
      AcceptedAppend(a, init, accepts);
      assert (a + b)[..|a + b| - 1] == a + init;
      assert (a + b)[|a + b| - 1] == b[|b| - 1];
    }
  }

  /** A single token is kept exactly when it is accepted. */
  lemma AcceptedOne(t: string, accepts: string -> bool)
    ensures Accepted([t], accepts) == if accepts(t) then [t] else []
  {
    assert [t][..0] == [];
  }

  /** The first accepted token is the first of the accepted tokens, and
      there is none exactly when none is accepted. */
  lemma {:induction false} FirstOfAccepted(toks: seq<string>, accepts: string -> bool)
    ensures FirstAccepted(toks, accepts).None? <==> Accepted(toks, accepts) == []
    ensures FirstAccepted(toks, accepts).Some? ==>
            Accepted(toks, accepts)[0] == toks[FirstAccepted(toks, accepts).value]
  {
    if toks != [] {
      var init := toks[..|toks| - 1];
      FirstOfAccepted(init, accepts);
      FirstAcceptedSnoc(init, toks[|toks| - 1], accepts);
      assert toks == init + [toks[|toks| - 1]];
    }
  }

  lemma FirstAcceptedSnoc(init: seq<string>, t: string, accepts: string -> bool)
    ensures FirstAccepted(init + [t], accepts) ==
            (if FirstAccepted(init, accepts).Some? then FirstAccepted(init, accepts)
             else if accepts(t) then Some(|init|) else None)
  {
    var toks := init + [t];
    assert toks[|init|] == t;
    assert forall j :: 0 <= j < |init| ==> toks[j] == init[j];
    match FirstAccepted(init, accepts)
    case Some(i) =>
      FirstAcceptedAt(toks, accepts, i);
    case None =>
      if accepts(t) {
        FirstAcceptedAt(toks, accepts, |init|);
      }
  }

  class AudioLooperUi {
    // the loaded sound file
    var samples: array?<real>
    var channels: uint32
    var samplesize: uint32
    var samplerate: uint32
    var jackSr: uint32
    var position: uint32
    var loadNew: bool
    var play: bool
    var ready: bool
    var playBackwards: bool

    // the playlist
    var playList: seq<Entry>
    var playListNames: seq<string>
    var playNow: uint32
    var usePlayList: bool
    var forceReload: bool

    /** The text of the configuration file the playlists are kept in; a
        missing file reads as the empty text. */
    var config: string

    ghost function Snapshot(): LoadState
      reads this
    {
      LoadState(samples, channels, samplesize, samplerate, position, loadNew, ready)
    }

    /** The samples the buffer holds. */
    ghost function Contents(): seq<real>
      reads this, samples
    {
      if samples == null then [] else samples[..]
    }

    /** The device rate and the play settings, which only the widgets set. */
    ghost function Settings(): (uint32, bool, bool)
      reads this
    {
      (jackSr, play, playBackwards)
    }

    /** The load state `read_soundfile` leaves for a file: the outcome of
        the load at the device rate, `ready` exactly when the early checks
        passed, no frames when no buffer is left, and the play-head at the
        end of the buffer when playing backwards, at its start otherwise. */
    ghost predicate LoadedFrom(file: SoundFile, resample: Resampler)
      reads this, samples
    {
      LoadedState(Snapshot(), Contents(), Load(file, jackSr, resample), playBackwards)
    }

    /** The player as it starts: nothing loaded, playing, an empty playlist
        not in use, and the names of the saved playlists read from the
        configuration file. */
    constructor(config: string)
      ensures samples == null && samplesize == 0 && samplerate == 0 && jackSr == 0 && position == 0
      ensures !loadNew && play && ready && !playBackwards
      ensures playList == [] && playNow == 0 && !usePlayList && !forceReload
      ensures this.config == config
      ensures playListNames == Names(Lines(config))
    {
      samples := null;
      channels := 0;
      samplesize := 0;
      samplerate := 0;
      jackSr := 0;
      position := 0;
      playNow := 0;
      loadNew := false;
      play := true;
      ready := true;
      usePlayList := false;
      forceReload := false;
      playBackwards := false;
      playList := [];
      playListNames := [];
      this.config := config;
      new;
      ReadPlayList();
    }

    // -------------------------------------------------------------------
    // read_soundfile
    // -------------------------------------------------------------------

    /** `read_soundfile(file)`: resets the load state, then loads the file
        at the device rate; a failed resampling leaves no frames. */
    method ReadSoundfile(file: SoundFile, resample: Resampler)
      modifies this
      ensures LoadedFrom(file, resample)
      ensures samples != null ==> fresh(samples)
      ensures playList == old(playList) && playListNames == old(playListNames) && playNow == old(playNow)
      ensures usePlayList == old(usePlayList) && forceReload == old(forceReload) && config == old(config)
      ensures Settings() == old(Settings())
    {
      // The load reads none of the fields that are reset, so it is done
      // first and the reset and the new values follow.
      var admitted, ch, size, rate, buf := Decode(file, jackSr, resample);
      channels, samplesize, samplerate, position, ready, samples := 0, 0, 0, 0, false, null;
      loadNew := true;
      if admitted {
        samplesize, channels, samplerate, samples := size, ch, rate, buf;
        if samples == null {
          samplesize := 0;
        }
        if playBackwards {
          position := samplesize;
        }
        ready := true;
      }
    }

    // -------------------------------------------------------------------
    // Playlist operations
    // -------------------------------------------------------------------

    /** `loadFromPlayList()`: unless it moves on, nothing changes; otherwise
        the forced reload is cleared, the index advances with wrap-around
        and the entry it reaches is loaded. A forced reload on an empty list
        would read through `begin()`, so the list must then hold an entry. */
    method LoadFromPlayList(disk: string -> SoundFile, resample: Resampler)
      requires forceReload ==> |playList| > 0
      modifies this
      ensures !Advances(|old(playList)|, old(usePlayList), old(forceReload)) ==>
              unchanged(this)
      ensures playList == old(playList) && playListNames == old(playListNames) &&
              usePlayList == old(usePlayList) && config == old(config) &&
              jackSr == old(jackSr) && play == old(play) && playBackwards == old(playBackwards)
      ensures Advances(|old(playList)|, old(usePlayList), old(forceReload)) ==>
              playNow == NextIndex(old(playNow), |playList|) &&
              !forceReload && LoadedFrom(disk(playList[playNow].path), resample) &&
              (samples != null ==> fresh(samples))
    {
      if (|playList| < 2 || !usePlayList) && !forceReload {
        return;
      }
      forceReload := false;
      playNow := NextIndex(playNow, |playList|);
      ReadSoundfile(disk(playList[playNow].path), resample);
    }

    /** `addToPlayList(path, load)`: one entry named by the path's basename
        goes at the end; with `load` it becomes the current one. */
    method AddToPlayList(path: string, load: bool)
      modifies this
      ensures playList == old(playList) + [EntryFor(path)]
      ensures playNow == if load then SizeMinusOne(|playList|) else old(playNow)
      ensures Snapshot() == old(Snapshot()) && Settings() == old(Settings())
      ensures playListNames == old(playListNames) && usePlayList == old(usePlayList)
      ensures forceReload == old(forceReload) && config == old(config)
    {
      playList := playList + [Entry(Basename(path), path)];
      if load {
        playNow := SizeMinusOne(|playList|);
      }
    }

    /** `remove_entry_callback` with the selected row `remove`: nothing on
        an empty list; otherwise that entry goes and a reload is forced. */
    method RemoveEntry(remove: int)
      requires |playList| > 0 ==> 0 <= remove < |playList|
      modifies this
      ensures |old(playList)| == 0 ==> unchanged(this)
      ensures |old(playList)| > 0 ==>
              playList == old(playList)[..remove] + old(playList)[remove + 1..] &&
              multiset(playList) + multiset{old(playList)[remove]} == multiset(old(playList)) &&
              forceReload
      ensures Snapshot() == old(Snapshot()) && Settings() == old(Settings())
      ensures playNow == old(playNow) && playListNames == old(playListNames)
      ensures usePlayList == old(usePlayList) && config == old(config)
    {
      if |playList| == 0 {
        return;
      }
      assert playList == playList[..remove] + [playList[remove]] + playList[remove + 1..];
      playList := playList[..remove] + playList[remove + 1..];
      forceReload := true;
    }

    /** `up_entry_callback` with the selected row `up`: nothing on an empty
        list or at the top; otherwise the entry trades places with the one
        above it. */
    method UpEntry(up: int)
      requires |playList| > 0 && up != 0 ==> 0 < up < |playList|
      modifies this
      ensures |old(playList)| == 0 || up == 0 ==> unchanged(this)
      ensures |old(playList)| > 0 && up != 0 ==>
              playList == old(playList)[up - 1 := old(playList)[up]][up := old(playList)[up - 1]]
      ensures multiset(playList) == multiset(old(playList))
      ensures Snapshot() == old(Snapshot()) && Settings() == old(Settings())
      ensures playNow == old(playNow) && playListNames == old(playListNames)
      ensures usePlayList == old(usePlayList) && forceReload == old(forceReload) && config == old(config)
    {
      if |playList| == 0 {
        return;
      }
      if up == 0 {
        return;
      }
      playList := Swap(playList, up - 1, up);
    }

    /** `down_entry_callback` with the selected row `down`, under the guard
        the swap needs (see `DownStops`): nothing on an empty list or at the
        bottom; otherwise the entry trades places with the one below it. */
    method DownEntry(down: int)
      requires |playList| > 0 && !DownStops(down, |playList|) ==> 0 <= down
      modifies this
      ensures |old(playList)| == 0 || DownStops(down, |old(playList)|) ==> unchanged(this)
      ensures |old(playList)| > 0 && !DownStops(down, |old(playList)|) ==>
              playList == old(playList)[down := old(playList)[down + 1]][down + 1 := old(playList)[down]]
      ensures multiset(playList) == multiset(old(playList))
      ensures Snapshot() == old(Snapshot()) && Settings() == old(Settings())
      ensures playNow == old(playNow) && playListNames == old(playListNames)
      ensures usePlayList == old(usePlayList) && forceReload == old(forceReload) && config == old(config)
    {
      if |playList| == 0 {
        return;
      }
      if DownStops(down, |playList|) {
        return;
      }
      playList := Swap(playList, down, down + 1);
    }

    /** `load_playlist_callback` for menu item `v`: the playlist becomes the
        saved list named `playListNames[v]`. With no buffer loaded the first
        entry is loaded, which the list must then have; otherwise the index
        goes to the last entry, so that the next advance starts at the
        first. */
    method LoadPlaylistCallback(v: int, disk: string -> SoundFile, resample: Resampler)
      requires 0 <= v < |playListNames|
      requires samples == null ==> Collected(Lines(config), playListNames[v]) != []
      modifies this
      ensures playListNames == old(playListNames) && usePlayList == old(usePlayList)
      ensures forceReload == old(forceReload) && config == old(config)
      ensures playList == Collected(Lines(config), playListNames[v])
      ensures Settings() == old(Settings())
      ensures old(samples) == null ==>
              playNow == old(playNow) && LoadedFrom(disk(playList[0].path), resample) &&
              (samples != null ==> fresh(samples))
      ensures old(samples) != null ==>
              playNow == SizeMinusOne(|playList|) && Snapshot() == old(Snapshot())
    {
      playList := [];
      LoadPlayList(playListNames[v]);
      if samples == null {
        ReadSoundfile(disk(playList[0].path), resample);
      } else {
        playNow := SizeMinusOne(|playList|);
      }
    }

    // -------------------------------------------------------------------
    // The configuration file
    // -------------------------------------------------------------------

    /** `save_PlayList(lname, append)`: the header and one file line per
        entry are written at the end of the file, or replace it. */
    method SavePlayList(lname: string, append: bool)
      modifies this
      ensures config == SaveText(old(config), lname, playList, append)
      ensures Snapshot() == old(Snapshot()) && Settings() == old(Settings())
      ensures playList == old(playList) && playListNames == old(playListNames) && playNow == old(playNow)
      ensures usePlayList == old(usePlayList) && forceReload == old(forceReload)
    {
      config := WriteSection(if append then config else "", lname, playList);
    }

    /** `load_PlayList(LoadName)`: the entries of every section named
        `LoadName` are appended to the playlist. */
    method LoadPlayList(loadName: string)
      modifies this
      ensures playList == old(playList) + Collected(Lines(config), loadName)
      ensures Snapshot() == old(Snapshot()) && Settings() == old(Settings())
      ensures playListNames == old(playListNames) && playNow == old(playNow)
      ensures usePlayList == old(usePlayList) && forceReload == old(forceReload) && config == old(config)
    {
      var got := ScanEntries(Lines(config), loadName);
      playList := playList + got;
    }

    /** `readPlayList()`: the name of every header is appended to
        `playListNames`. */
    method ReadPlayList()
      modifies this
      ensures playListNames == old(playListNames) + Names(Lines(config))
      ensures Snapshot() == old(Snapshot()) && Settings() == old(Settings())
      ensures playList == old(playList) && playNow == old(playNow)
      ensures usePlayList == old(usePlayList) && forceReload == old(forceReload) && config == old(config)
    {
      var names := ScanNames(Lines(config));
      playListNames := playListNames + names;
    }

    // -------------------------------------------------------------------
    // Drag and drop
    // -------------------------------------------------------------------

    /** `dnd_load_response` on the main window: with the audio stream
        running, the first dropped file whose format is supported is loaded
        and appended as the current entry, and the rest of the drop is
        ignored. */
    method DndLoadResponse(streamActive: bool, dropped: Option<string>, supported: set<string>,
                           disk: string -> SoundFile, resample: Resampler)
      modifies this
      ensures !streamActive || dropped.None? ==> unchanged(this)
      ensures Settings() == old(Settings())
      ensures streamActive && dropped.Some? ==>
              var toks := Tokens(dropped.value);
              match FirstAccepted(toks, Accepts(supported))
              case None => unchanged(this)
              case Some(i) =>
                LoadedFrom(disk(toks[i]), resample) && (samples != null ==> fresh(samples)) &&
                playList == old(playList) + [EntryFor(toks[i])] && playNow == SizeMinusOne(|playList|) &&
                playListNames == old(playListNames) && usePlayList == old(usePlayList) &&
                forceReload == old(forceReload) && config == old(config)
    {
      if !streamActive {
        return;
      }
      if dropped.None? {
        return;
      }
      LoadFirstAccepted(Tokens(dropped.value), Accepts(supported), disk, resample);
    }

    method LoadFirstAccepted(toks: seq<string>, accepts: string -> bool,
                           disk: string -> SoundFile, resample: Resampler)
      modifies this
      ensures Settings() == old(Settings())
      ensures
              match FirstAccepted(toks, accepts)
              case None => unchanged(this)
              case Some(i) =>
                LoadedFrom(disk(toks[i]), resample) && (samples != null ==> fresh(samples)) &&
                playList == old(playList) + [EntryFor(toks[i])] && playNow == SizeMinusOne(|playList|) &&
                playListNames == old(playListNames) && usePlayList == old(usePlayList) &&
                forceReload == old(forceReload) && config == old(config)
    {
      var i := 0;
      while i < |toks|
        invariant 0 <= i <= |toks|
        invariant forall j :: 0 <= j < i ==> !accepts(toks[j])
        invariant unchanged(this)
      {
        if accepts(toks[i]) {
          ReadSoundfile(disk(toks[i]), resample);
          AddToPlayList(toks[i], true);
          assert FirstAccepted(toks, accepts) == Some(i) by {
            FirstAcceptedAt(toks, accepts, i);
          }
          return;
        }
        i := i + 1;
      }
      assert FirstAccepted(toks, accepts) == None;
    }

    /** `dnd_load_playlist` on the playlist window: with the audio stream
        running, every dropped file whose format is supported is appended in
        order and a reload is forced; the first is loaded only when the
        playlist was empty, and none becomes the current entry. */
    method DndLoadPlaylist(streamActive: bool, dropped: Option<string>, supported: set<string>,
                           disk: string -> SoundFile, resample: Resampler)
      modifies this
      ensures !streamActive || dropped.None? ==> unchanged(this)
      ensures streamActive && dropped.Some? ==>
              var accepted := Accepted(Tokens(dropped.value), Accepts(supported));
              playList == old(playList) + EntriesFor(accepted) &&
              forceReload == (old(forceReload) || accepted != []) &&
              (if old(playList) == [] && accepted != []
               then LoadedFrom(disk(accepted[0]), resample) && (samples != null ==> fresh(samples))
               else Snapshot() == old(Snapshot())) &&
              playNow == old(playNow) && playListNames == old(playListNames) &&
              usePlayList == old(usePlayList) && config == old(config) &&
              jackSr == old(jackSr) && play == old(play) && playBackwards == old(playBackwards)
    {
      if !streamActive {
        return;
      }
      if dropped.None? {
        return;
      }
      var accepted := FilterAccepted(Tokens(dropped.value), Accepts(supported));
      if |playList| == 0 && accepted != [] {
        ReadSoundfile(disk(accepted[0]), resample);
      }
      AppendAll(accepted);
    }

    /** The entries for `paths` go at the end of the playlist, none of them
        current, and a reload is forced when there is one. */
    method AppendAll(paths: seq<string>)
      modifies this
      ensures playList == old(playList) + EntriesFor(paths)
      ensures forceReload == (old(forceReload) || paths != [])
      ensures Snapshot() == old(Snapshot()) && Settings() == old(Settings())
      ensures playNow == old(playNow) && playListNames == old(playListNames)
      ensures usePlayList == old(usePlayList) && config == old(config)
    {
      ghost var start := playList;
      var i := 0;
      while i < |paths|
        invariant 0 <= i <= |paths|
        invariant playList == start + EntriesFor(paths[..i])
        invariant forceReload == (old(forceReload) || i > 0)
        invariant Snapshot() == old(Snapshot()) && Settings() == old(Settings())
        invariant playNow == old(playNow) && playListNames == old(playListNames)
        invariant usePlayList == old(usePlayList) && config == old(config)
      {
        AppendStep(start, paths, i);
        AddToPlayList(paths[i], false);
        forceReload := true;
        i := i + 1;
      }
      assert paths[..i] == paths;
    }
  }

  /** The loop of `dnd_load_playlist` over the dropped tokens, as far as it
      decides which of them are kept. */
  method FilterAccepted(toks: seq<string>, accepts: string -> bool) returns (acc: seq<string>)
    ensures acc == Accepted(toks, accepts)
  {
    var i := 0;
    acc := [];
    assert toks[..0] == [];
    while i < |toks|
      invariant 0 <= i <= |toks|
      invariant acc == Accepted(toks[..i], accepts)
    {
      assert toks[..i + 1][..i] == toks[..i];
      assert toks[..i + 1][i] == toks[i];
      if accepts(toks[i]) {
        acc := acc + [toks[i]];
      }
      i := i + 1;
    }
    assert toks[..i] == toks;
  }

  /** The writing loop of `save_PlayList`: after the old text `base`
      (empty when the file is truncated) the header line goes out, then one
      file line per entry, each ended by a newline. */
  method WriteSection(base: string, lname: string, list: seq<Entry>) returns (out: string)
    ensures out == base + Unlines(SectionLines(lname, list))
  {
    out := base + HeaderLine(lname) + "\n";
    assert out == base + Unlines(SectionLines(lname, list[..0]));
    var i := 0;
    while i < |list|
      invariant 0 <= i <= |list|
      invariant out == base + Unlines(SectionLines(lname, list[..i]))
    {
      assert SectionLines(lname, list[..i + 1]) == SectionLines(lname, list[..i]) + [FileLine(list[i].path)];
      UnlinesAppend(SectionLines(lname, list[..i]), [FileLine(list[i].path)]);
      out := out + FileLine(list[i].path) + "\n";
      i := i + 1;
    }
    assert list[..i] == list;
  }

  /** The reading loop of `load_PlayList`: line by line, a header switches
      the current list name, and a file line under the wanted name adds an
      entry named by the basename of its path. */
  method ScanEntries(lines: seq<string>, loadName: string) returns (got: seq<Entry>)
    ensures got == Collected(lines, loadName)
  {
    var listName := "";
    var i := 0;
    got := [];
    assert lines[..0] == [];
    while i < |lines|
      invariant 0 <= i <= |lines|
      invariant listName == ListNameAfter(lines[..i]) && got == Collected(lines[..i], loadName)
    {
      var line := lines[i];
      var key := FirstToken(line);
      LoadStep(lines, i, loadName);
      if key == PlayListKey {
        listName := RemoveSub(line, PlayListKey + " ");
      }
      if listName == loadName {
        if key == FileKey {
          var fileName := RemoveSub(line, FileKey + " ");
          got := got + [Entry(Basename(fileName), fileName)];
        }
      }
      i := i + 1;
    }
    assert lines[..i] == lines;
  }

  /** The reading loop of `readPlayList`: the name of every header line, in
      order. */
  method ScanNames(lines: seq<string>) returns (names: seq<string>)
    ensures names == Names(lines)
  {
    var i := 0;
    names := [];
    assert lines[..0] == [];
    while i < |lines|
      invariant 0 <= i <= |lines|
      invariant names == Names(lines[..i])
    {
      var line := lines[i];
      ReadStep(lines, i, "");
      if FirstToken(line) == PlayListKey {
        names := names + [RemoveSub(line, PlayListKey + " ")];
      }
      i := i + 1;
    }
    assert lines[..i] == lines;
  }

  /** `std::swap` of two entries of a list. */
  function Swap<T>(s: seq<T>, i: nat, j: nat): (r: seq<T>)
    requires i < |s| && j < |s|
    ensures |r| == |s| && r[i] == s[j] && r[j] == s[i]
    ensures forall k :: 0 <= k < |s| && k != i && k != j ==> r[k] == s[k]
    ensures multiset(r) == multiset(s)
  {
    s[i := s[j]][j := s[i]]
  }

  lemma AppendStep(start: seq<Entry>, paths: seq<string>, i: nat)
    requires i < |paths|
    ensures start + EntriesFor(paths[..i]) + [EntryFor(paths[i])] == start + EntriesFor(paths[..i + 1])
  {
    assert paths[..i + 1] == paths[..i] + [paths[i]];
    EntriesForSnoc(paths[..i], paths[i]);
  }
}
