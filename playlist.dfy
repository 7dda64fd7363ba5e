/** `Playlist::new` (src/parser.rs:364-371): a playlist file holds its title on the
    first line and one song per following line. */
module Playlists {
  import opened Text

  /** The folder entry a playlist line becomes; `util::FolderEntry` is not part of
      this model beyond the one variant the playlist builds. */
  datatype FolderEntry = Song(name: string)

  datatype Playlist = Playlist(title: string, songs: seq<FolderEntry>, playliststring: string)

  /** `lines.map(|s| FolderEntry::Song(s.to_string()))`: one song entry per line. */
  function Entries(lines: seq<string>): (r: seq<FolderEntry>)
    ensures |r| == |lines|
    ensures forall i :: 0 <= i < |r| ==> r[i].name == lines[i]
  {
    if lines == [] then [] else [Song(lines[0])] + Entries(lines[1..])
  }

  /** The names of the entries, in order. */
  function EntryNames(entries: seq<FolderEntry>): (r: seq<string>)
    ensures |r| == |entries|
  {
    if entries == [] then [] else [entries[0].name] + EntryNames(entries[1..])
  }

  /** Reading the names back gives the lines the entries were made from. */
  lemma {:induction false} EntryNamesRoundTrip(lines: seq<string>)
    ensures EntryNames(Entries(lines)) == lines
    decreases |lines|
  {
    if lines != [] {
      assert Entries(lines)[1..] == Entries(lines[1..]);
      EntryNamesRoundTrip(lines[1..]);
    }
  }

  /** `Playlist::new`. The `unwrap` of the first line panics on the empty string,
      the only text without lines, which the precondition rules out. */
  function NewPlaylist(playliststring: string): (p: Playlist)
    requires playliststring != []
    ensures p.playliststring == playliststring
  {
    var lines := Lines(playliststring);
    Playlist(lines[0], Entries(lines[1..]), playliststring)
  }

  /** The title and the song names are the lines of the text, in order. */
  lemma PlaylistLines(playliststring: string)
    requires playliststring != []
    ensures var p := NewPlaylist(playliststring);
      [p.title] + EntryNames(p.songs) == Lines(playliststring)
  {
    var lines := Lines(playliststring);
    EntryNamesRoundTrip(lines[1..]);
    assert [lines[0]] + lines[1..] == lines;
  }

  /** Writing the title and the song names back, one per line, gives the text again
      (up to a final line feed) when it has no carriage returns; no name holds a
      line feed. */
  lemma PlaylistRoundTrip(playliststring: string)
    requires playliststring != [] && '\r' !in playliststring
    ensures var p := NewPlaylist(playliststring);
      Terminated([p.title] + EntryNames(p.songs))
      == if playliststring[|playliststring| - 1] == '\n' then playliststring else playliststring + "\n"
    ensures var p := NewPlaylist(playliststring);
      '\n' !in p.title && forall i :: 0 <= i < |p.songs| ==> '\n' !in p.songs[i].name
  {
    PlaylistLines(playliststring);
    LinesTerminated(playliststring);
  }
}
