# alooper: playlist, playlist store and sound-file loading

A Dafny model of the non-graphical core of the `alooper` audio looper. It covers two parts.

The first part is the player's playlist. This is a list of `(display name, path)` entries with a current index, a "use the playlist" flag and a "force a reload" flag. Entries are appended, removed and moved up or down. The index advances with wrap-around when a file ends. A drop onto a window appends files whose extension the sound-file library supports.

Playlists are saved to a line-oriented configuration text:

    [PlayList] <name>
    [File] <path>
    [File] <path>

Loading a playlist by name collects the `[File]` lines of every section with that name. Listing the playlists collects the header names.

The second part is loading a sound file into a sample buffer. This is the same sequence in `AudioLooperUi::read_soundfile` and `AudioFile::getAudioFile`:

1. Reset the fields and drop the old buffer.
2. Refuse files that do not open, that have more than two channels, or whose buffer cannot be allocated.
3. Zero the buffer and read the frames into its front.
4. Fall back to the header's frame count when the read returns none.
5. Take the channel count and rate from the header.
6. Hand the buffer to the resampler. It may return the same buffer, a new one, or null.

Module layout:

- `common.dfy`: `Option` and 32-bit unsigned integers.
- `text.dfy`: the C and C++ library string operations the player relies on. These are `std::getline` over a text, `std::endl`, `operator>>` into a string, the player's `remove_sub`, `basename` in its GNU form, and `strtok(…, "\r\n")`.
- `formats.dfy`: `SupportedFormats::isSupported`, with `std::filesystem::path::extension` and `tolower`.
- `playlist.dfy`: entries, and the store format as functions. This covers what `save_PlayList` writes, what `load_PlayList` collects and what `readPlayList` lists. It also holds the round-trip lemmas.
- `audio.dfy`: what a load produces (`Load`), the buffer methods (`ZeroFill`, `ReadInto`, `Decode`) and the class `AudioFile`.
- `looper.dfy`: the class `AudioLooperUi`, with its fields and the playlist, store, drop and load operations as methods. It also has the index arithmetic and the loops of the store and drop handlers, each proved against the specification function it computes.

The sound-file library is a value: a `SoundFile` says whether the file opens, its header, the frames a read returns, and whether its buffer can be allocated. The disk is a function from a path to such a value. The resampler `checkSampleRate` is a function passed in. The configuration file is a `string` field, and a missing file reads as the empty text. Whether the audio stream is running is a boolean parameter. The set of supported extensions is a parameter.

## Model

| member | source | states |
|---|---|---|
| Common.U32 | alooper/xui.h:392 | a value below 2^32 survives the conversion to `uint32_t` unchanged |
| Text.NewlineAt | alooper/xui.h:584 | the index of the first newline, or the length; no newline comes before it |
| Text.Lines | alooper/xui.h:584 | the lines `std::getline` yields never hold a newline |
| Text.Unlines | alooper/xui.h:568-570 | what `std::endl` writes after each line is empty or ends in a newline; `LinesOfUnlines` and `UnlinesOfLines` make it the inverse of `Lines` |
| Text.UnlinesAppend | alooper/xui.h:568-570 | writing two runs of lines one after the other gives the two texts concatenated |
| Text.LinesOfUnlines | alooper/xui.h:568-570 | newline-free lines written with `std::endl` read back as the same lines |
| Text.UnlinesOfLines | alooper/xui.h:584 | a text ending in a newline is exactly its lines written back |
| Text.LinesAfterAppend | alooper/xui.h:566-570 | appending lines to a newline-terminated file appends them to what is read back |
| Text.TakeWord | alooper/xui.h:586 | the word is a prefix of the text and holds no white space |
| Text.LeadingSpace | alooper/xui.h:586 | the white space `>>` skips: every character before it is white space and the one at it is not |
| Text.FirstToken | alooper/xui.h:586 | the key `buf >> key` leaves holds no white space, and is the word at the front of a line that does not start with white space |
| Text.FirstTokenSkipsSpace | alooper/xui.h:585-586 | the key is the word after the leading white space, and it is "" exactly when the line is blank |
| Text.FirstTokenOfWord | alooper/xui.h:586 | the key of `word + " " + rest` is `word` when the word is non-empty and has no white space |
| Text.FindFrom | alooper/xui.h:558 | `find` gives the first position at or after `from` where the pattern occurs, or none when it does not occur |
| Text.RemoveSub | alooper/xui.h:557-562 | `remove_sub(a, b)` erases exactly the first occurrence of `b`, giving `a[..p] + a[p+|b|..]`; `a` comes back unchanged when `b` does not occur |
| Text.RemoveSubPrefix | alooper/xui.h:557-562 | removing a key from a line that starts with it leaves the rest of the line |
| Text.LastIndexOf | alooper/xui.h:385 | the position of the last occurrence of a character, or none when it does not occur |
| Text.Basename | alooper/xui.h:385 | `basename` is the suffix after the last '/', holds no '/', and is the whole path when there is no '/' |
| Text.RunLength | alooper/xui.h:413 | the length of the run of non-delimiters at the front |
| Text.Tokens | alooper/xui.h:413-424 | successive `strtok(…, "\r\n")` results are non-empty and free of CR and LF |
| Text.TokensOfCrlfLines | alooper/xui.h:413-424 | tokenising entries joined by CR LF gives back the entries |
| Formats.IsSupported | alooper/xui.h:42-53 | a name whose final component has no '.' after its first character is never supported, and nothing is supported when the library reports no extensions |
| Formats.Lower | alooper/xui.h:49 | `tolower` applied to every character; the length is kept |
| Formats.Extension | alooper/xui.h:43-44 | the extension is empty or starts with '.', is a proper suffix of the name, and holds no further '.' |
| Formats.IsSupportedIff | alooper/xui.h:42-53 | `stem.e` is supported exactly when lower-cased `e` is in the set |
| Formats.BasenameOfDotted | alooper/xui.h:43-44 | the final component of `stem.e` is the stem's final component followed by `.e` |
| Formats.ExtensionAfterLastDot | alooper/xui.h:44 | the extension of `b.e` is `.e` |
| Formats.BasenameAppend | alooper/xui.h:385 | text without '/' appended to a path is appended to its basename |
| Formats.LastIndexOfLower | alooper/xui.h:49 | lower-casing moves no '/' or '.' |
| Formats.LowerIdempotent | alooper/xui.h:49 | lower-casing twice is lower-casing once |
| Formats.BasenameLower | alooper/xui.h:43-49 | lower-casing commutes with taking the basename |
| Formats.ExtensionLower | alooper/xui.h:43-49 | lower-casing commutes with taking the extension |
| Formats.IsSupportedCaseInsensitive | alooper/xui.h:42-53 | a name and its lower-cased form are accepted or refused together |
| Playlist.SectionLines | alooper/xui.h:565-575 | one `[PlayList] <name>` line, then one `[File] <path>` line per entry, in list order |
| Playlist.SaveText | alooper/xui.h:565-575 | the store after a save ends in a newline and is longer than the text it kept (the old text, or "" when truncated) |
| Playlist.ListNameAfter | alooper/xui.h:588 | the current list name after some lines is that of the nearest header above, "" before any |
| Playlist.Collected | alooper/xui.h:577-601 | no more entries than lines are collected |
| Playlist.CollectedWellNamed | alooper/xui.h:591-593 | every collected entry is named by the basename of its path |
| Playlist.Names | alooper/xui.h:604-621 | no more names than lines are listed |
| Playlist.HeaderLineParts | alooper/xui.h:565-588 | a written header reads back with key `[PlayList]` and its name |
| Playlist.FileLineParts | alooper/xui.h:565-591 | a written file line reads back with key `[File]` and its path |
| Playlist.AfterHeader | alooper/xui.h:586-588 | reading a header makes its name current, lists it, and collects nothing |
| Playlist.AfterFileLine | alooper/xui.h:589-594 | reading a file line keeps the current name and collects an entry exactly when that name is the wanted one |
| Playlist.FilesAfterName | alooper/xui.h:589-594 | file lines leave the current name and the listed names unchanged |
| Playlist.FilesAfter | alooper/xui.h:589-594 | file lines after a header are collected exactly when that header's name is wanted |
| Playlist.Section | alooper/xui.h:565-601 | a whole saved section adds its name to the list of names, and its entries to what is collected exactly when its name is wanted |
| Playlist.SavedLines | alooper/xui.h:565-584 | after an appending save the file reads as its old lines, then the header, then the file lines |
| Playlist.SaveThenLoad | alooper/xui.h:565-601 | save then load gives the old entries, followed by the saved paths when the names match |
| Playlist.RoundTrip | alooper/xui.h:565-601 | a list saved under a name the store does not hold yet loads back equal, on both the appending and the truncating save |
| Playlist.SaveThenList | alooper/xui.h:565-621 | a save adds its name at the end of the listed names, repeats kept |
| Audio.Decoded | alooper/AudioFile.h:73-79 | the buffer has `frames * channels` samples, the frames read at its front and zeros after them |
| Audio.ReadFrames | alooper/AudioFile.h:79-80 | `samplesize` is the frames read, or the header's frame count when the read gave none, both cut to 32 bits |
| Audio.Load | alooper/AudioFile.h:56-85 | the early checks pass exactly when the file opens, has at most two channels and can be allocated; a refused file leaves zeros and no buffer; an admitted one reports the header's channel count and rate |
| Audio.LoadSucceeds | alooper/AudioFile.h:84-85 | a buffer is left exactly when the checks pass and the resampler does not return null; when the resampler keeps the buffer, the samples past the frames read are zero |
| Audio.SamplerateIsTheFiles | alooper/AudioFile.h:82-84 | the reported rate is the file's whatever the device rate is |
| Audio.ZeroFill | alooper/AudioFile.h:78 | every slot of the buffer becomes 0 |
| Audio.ReadInto | alooper/AudioFile.h:79 | the frames read are written at the front and the rest of the buffer is unchanged |
| Audio.Decode | alooper/AudioFile.h:62-84 | the flag, the three fields and the buffer equal the outcome of `Load` |
| Audio.AudioFile.constructor | alooper/AudioFile.h:38-44 | all counts zero, both buffers null |
| Audio.AudioFile.GetAudioFile | alooper/AudioFile.h:52-86 | the fields are those of `Load`; the result is true exactly when a buffer is left; the save buffer is untouched |
| Looper.NextIndex | alooper/xui.h:362-366 | the next index is below the size, wraps to 0 at the end and is one up otherwise |
| Looper.AdvanceAdd | alooper/xui.h:359-367 | `a` advances followed by `b` advances are `a + b` advances |
| Looper.AdvanceInOrder | alooper/xui.h:359-367 | advancing steps through the following entries in order and reaches 0 at the end |
| Looper.AdvanceFullRound | alooper/xui.h:359-367 | after as many advances as there are entries the index is back, and not before |
| Looper.SizeMinusOne | alooper/xui.h:489 | `size()-1` as `uint32_t`: the last index, or the largest value for an empty list |
| Looper.LastWrapsToFirst | alooper/xui.h:362-366 | an index at the last entry advances to the first |
| Looper.DownGuardLetsLastThrough | alooper/xui.h:471-472 | the guard as written lets the last entry through to a swap with the slot past the end |
| Looper.FirstAccepted | alooper/xui.h:719-731 | the index of the first accepted token: accepted, and no earlier one is |
| Looper.FirstAcceptedAt | alooper/xui.h:719-731 | an accepted token with no accepted one before it is the first |
| Looper.Accepted | alooper/xui.h:413-424 | the kept tokens are accepted tokens of the drop, no more of them than there are tokens |
| Looper.AcceptedKeepsAll | alooper/xui.h:413-419 | every accepted token of the drop is kept |
| Looper.AcceptedAll | alooper/xui.h:413-419 | all tokens are kept exactly when all are accepted |
| Looper.AcceptedAppend | alooper/xui.h:413-419 | the drop is filtered in order: two parts give their kept tokens one after the other, repeats kept |
| Looper.AcceptedOne | alooper/xui.h:413-419 | a single token is kept exactly when it is accepted |
| Looper.FirstOfAccepted | alooper/xui.h:407-425 | the main window loads the first token the playlist drop would append; none is loaded exactly when none would be appended |
| Looper.FirstAcceptedSnoc | alooper/xui.h:719-731 | one more token changes the first accepted one only when there was none |
| Looper.AudioLooperUi.constructor | alooper/xui.h:126-150 | the initial field values, and the saved playlist names read from the configuration text |
| Looper.AudioLooperUi.ReadSoundfile | alooper/xui.h:644-709 | the load state is that of `Load` at the device rate; `ready` holds exactly when the early checks passed; no frames without a buffer; the play-head at the end when playing backwards; the playlist is untouched |
| Looper.AudioLooperUi.LoadFromPlayList | alooper/xui.h:359-380 | nothing changes unless a reload is forced or the list is in use with two entries; otherwise the flag is cleared, the index advances with wrap-around and that entry is loaded |
| Looper.AudioLooperUi.AddToPlayList | alooper/xui.h:383-392 | exactly one `(basename(path), path)` is appended; the index moves to it only when loading |
| Looper.AudioLooperUi.RemoveEntry | alooper/xui.h:439-449 | no change on an empty list; otherwise exactly the selected entry goes and a reload is forced |
| Looper.AudioLooperUi.UpEntry | alooper/xui.h:452-462 | no change on an empty list or at the top; otherwise the entry swaps with the one above, and the multiset of entries is kept |
| Looper.AudioLooperUi.DownEntry | alooper/xui.h:465-475 | with the corrected guard: no change on an empty list or at the bottom; otherwise the entry swaps with the one below, and the multiset is kept |
| Looper.AudioLooperUi.LoadPlaylistCallback | alooper/xui.h:478-491 | the list becomes the saved list of the chosen name; with no buffer its first entry is loaded at the unchanged device rate and direction, otherwise the index goes to the last entry and the load state is kept |
| Looper.AudioLooperUi.SavePlayList | alooper/xui.h:565-575 | the configuration text becomes the old text (or nothing) followed by the written section |
| Looper.AudioLooperUi.LoadPlayList | alooper/xui.h:577-601 | the entries of every section with the name are appended in file order |
| Looper.AudioLooperUi.ReadPlayList | alooper/xui.h:604-621 | every header name is appended in file order |
| Looper.AudioLooperUi.DndLoadResponse | alooper/xui.h:716-734 | with the stream running, the first supported token is loaded at the unchanged device rate and direction and appended as current, and the rest is ignored; otherwise nothing changes |
| Looper.AudioLooperUi.LoadFirstAccepted | alooper/xui.h:722-731 | the loop loads and appends the first accepted token, keeping the device rate and play settings, or changes nothing when there is none |
| Looper.AudioLooperUi.DndLoadPlaylist | alooper/xui.h:407-425 | with the stream running, every supported token is appended in order and none becomes current; the first is loaded only into an empty list; a reload is forced when any was appended |
| Looper.AudioLooperUi.AppendAll | alooper/xui.h:415-419 | the entries for the paths are appended in order, and a reload is forced when there is one |
| Looper.FilterAccepted | alooper/xui.h:413-424 | the loop keeps exactly `Accepted` of the tokens |
| Looper.WriteSection | alooper/xui.h:566-573 | the writing loop produces the old text followed by the section's lines, each ended by a newline |
| Looper.ScanEntries | alooper/xui.h:583-598 | the reading loop collects exactly `Collected` of the lines |
| Looper.ScanNames | alooper/xui.h:609-617 | the reading loop lists exactly `Names` of the lines |
| Looper.Swap | alooper/xui.h:452-475 | `std::swap` exchanges the two entries, keeps the others, and keeps the multiset |

## Left out

- Widgets, listbox and menu updates, window titles, wave-view drawing, and X11 locking: these are user interface. `rebuildPlayList` only redraws the list box.
- The worker threads and the `SyncWait`/`WMutex` wait in `read_soundfile`: loads are sequential here.
- `Pa_IsStreamActive`: a foreign audio back end, passed in as a boolean.
- `getSupportedFileExtensions`: a series of library queries; the set of extensions is a parameter.
- libsndfile (`sf_open`, `sf_readf_float`) and `checkSampleRate`: their results are inputs (`SoundFile`, `Resampler`). `CheckResample.h` is not part of this model, so no frame-count arithmetic of the resampler is stated.
- `saveAudioFile` and `saveProcessedAudioFile`: pure file output through libsndfile.
- The gain, `set_playhead` and the other floating-point parts of the player: floating-point numerics.
- `getenv` and the path of the configuration file: environment. The file is the `config` text, and a file that does not open reads as "".
- The `save_response` and `save_as_callback` prompts, and the pointer and button checks before the remove, up and down callbacks: user interface. The selected row is a parameter.
- The destructor, `onExit`, `setJackSampleRate` and `setPaStream`: resource release and plain setters.
- `strtok` writes NUL bytes into the dropped text. The model only yields the tokens.
- Text is a sequence of characters. Bytes, encodings and locale are not modelled; `tolower` is the "C" locale.
- The `sf_count_t` product `frames * channels` that sizes the buffer (alooper/AudioFile.h:73, 78) is an unbounded natural, so its overflow is not modelled. Only the frame count is cut to 32 bits, where the read count and `info.frames` go into `samplesize` (`ReadFrames`).
- Text.Basename: the headers that declare `basename` are not among the files included at alooper/xui.h:10-29. The model assumes the GNU version, which gives "" for a path ending in '/'; the POSIX version would give the last component.
- Looper.AudioLooperUi.SavePlayList: always writes the section. The source writes nothing when the configuration file does not open (alooper/xui.h:566-567); file-open failures are not modelled.
- Text.FirstToken: its own contract fixes the key only for a line that starts with a word. Skipping leading white space and the empty key of a blank line are stated by the lemma `FirstTokenSkipsSpace`, kept apart so that the reading loops' proofs stay small.
- Looper.Accepted: its own contract states only that kept tokens are accepted. That every accepted token is kept, in order and with repeats, is stated by the lemmas `AcceptedKeepsAll`, `AcceptedAll`, `AcceptedAppend` and `AcceptedOne`, kept apart so that the drop handler's proof stays small.
- The constructor of `AudioLooperUi` leaves `channels` uninitialised. The model sets it to 0.
- Looper.AudioLooperUi.LoadFromPlayList: requires a non-empty list when a reload is forced. The source would dereference `begin()` of an empty vector.
- Looper.AudioLooperUi.LoadPlaylistCallback: requires a valid menu index, and a non-empty saved list when no buffer is loaded. The source indexes `PlayListNames[v]` and dereferences `begin()` unchecked.
- Looper.AudioLooperUi.RemoveEntry: requires the selected row to be an entry. The source erases at `begin() + remove` unchecked.
- Looper.AudioLooperUi.UpEntry: requires the selected row to be an entry. The source swaps unchecked.
- Looper.AudioLooperUi.DownEntry: uses the corrected guard `down + 1 >= size` (see Findings). With the guard as written, the last entry would swap with the slot past the end.
- Looper.AudioLooperUi.LoadPlayList, Looper.AudioLooperUi.ReadPlayList and Looper.AudioLooperUi.SavePlayList: each runs its line loop in a helper method (`ScanEntries`, `ScanNames`, `WriteSection`) and assigns the field once. The source pushes each item into the field as it goes; the final state is the same.
- Looper.AudioLooperUi.DndLoadPlaylist: first filters the tokens (`FilterAccepted`), then loads the first if the list was empty, then appends them all (`AppendAll`). The source interleaves these steps in one loop; the final state is the same, because the load happens only while the list is empty, that is, for the first accepted token.
- Looper.AudioLooperUi.ReadSoundfile: runs the load before resetting the fields. The load reads none of the reset fields, so the final state is the same as in the source's order.
- Class methods that do not touch the sample buffer do not restate its contents in their contracts. None of them has the buffer in its `modifies` clause, so its contents cannot change.
- Where the code and the design differ, the model follows the code:
  - A load refused early leaves `ready` false (alooper/xui.h:662-678), not true.
  - `samplerate` keeps the file's own rate after resampling (alooper/AudioFile.h:82-84).
  - A forced reload advances the index instead of reloading the current entry (alooper/xui.h:360-366).
  - The save-then-load round trip needs the stored text to end with a newline or be empty, because the header is appended straight after it.

## Findings

| source | as written | input that shows it | evidently intended | confidence | as-written member | corrected member |
|---|---|---|---|---|---|---|
| alooper/xui.h:471-472 | `down_entry_callback` returns early only when `down > size-1`, then swaps entries `down` and `down+1` | a list of two entries with row 1 selected: the guard passes and `PlayList[2]` is read and written past the end | return early when `down + 1 >= size`, so that both swapped entries exist | high, not executed | Looper.DownGuardLetsLastThrough | Looper.AudioLooperUi.DownEntry |
