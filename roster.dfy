/**
 * core/roster.py: `ArtistRoster`, the local list of known artist names and the tagging of
 * records whose artist is unknown. The roster file is the sequence of its lines; the file is
 * missing when `lines` is None.
 */
module Roster {
  import opened Wrappers
  import opened PyStr
  import opened Models
  import opened Seqs

  /** The form a name is kept in: `name.strip().lower()`. */
  function Normal(name: string): string {
    Lower(Strip(name))
  }

  /** `{line.strip().lower() for line in f if line.strip()}`. */
  function Loaded(lines: seq<string>): (names: set<string>)
    ensures forall k :: 0 <= k < |lines| && Strip(lines[k]) != [] ==> Normal(lines[k]) in names
    decreases |lines|
  {
    if lines == [] then {}
    else
      var front := lines[..|lines| - 1];
      var last := lines[|lines| - 1];
      var names0 := Loaded(front);
      var extra := if Strip(last) != [] then {Normal(last)} else {};
      ImagesSnoc(lines, front, l => Strip(l) != [], Normal, names0, extra);
      names0 + extra
  }

  /** The roster names among the whitespace-separated, lower-cased tags, each once, in order of
      first occurrence. */
  function Matched(tags: string, roster: set<string>): (r: seq<string>)
    ensures Distinct(r)
    ensures forall k :: 0 <= k < |r| ==> r[k] in roster && r[k] in SplitWs(Lower(tags))
    ensures forall t :: t in SplitWs(Lower(tags)) && t in roster ==> t in r
  {
    if tags == [] then []
    else
      Dedupe(Filter(SplitWs(Lower(tags)), roster))
  }

  /** The tokens that are in `roster`, in order. */
  function Filter(toks: seq<string>, roster: set<string>): (r: seq<string>)
    ensures forall k :: 0 <= k < |r| ==> r[k] in roster && r[k] in toks
    ensures forall t :: t in toks && t in roster ==> t in r
    decreases |toks|
  {
    if toks == [] then []
    else
      var rest := Filter(toks[1..], roster);
      assert forall t :: t in toks ==> t == toks[0] || t in toks[1..];
      if toks[0] in roster then [toks[0]] + rest else rest
  }

  /** What `assign_artists` does to one record. */
  function Assigned(item: Item, roster: set<string>): (r: Item)
    ensures item.artist != UNKNOWN ==> r == item
    ensures item.artist == UNKNOWN && Matched(item.tags, roster) == [] ==> r == item
    ensures item.artist == UNKNOWN && Matched(item.tags, roster) != [] ==>
      r == item.(artist := Join(", ", Matched(item.tags, roster)))
  {
    if item.artist == UNKNOWN then
      var matched := Matched(item.tags, roster);
      if matched != [] then item.(artist := Join(", ", matched)) else item
    else item
  }

  class ArtistRoster {
    const filepath: string
    var artists: set<string>
    /** The lines of the roster file. */
    var lines: seq<string>

    /** The in-memory set is what loading the file would give. */
    ghost predicate Valid()
      reads this
    {
      artists == Loaded(lines)
    }

    /** `ArtistRoster(filepath)` followed by `_load()`. */
    constructor(filepath: string, file: Option<seq<string>>)
      ensures Valid()
      ensures this.filepath == filepath
      ensures file.None? ==> artists == {} && lines == []
      ensures file.Some? ==> artists == Loaded(file.value) && lines == file.value
    {
      this.filepath := filepath;
      match file {
        case None =>
          artists := {};
          lines := [];
        case Some(ls) =>
          artists := Loaded(ls);
          lines := ls;
      }
    }

    /** `add(artist_name)`: a new, non-empty normalised name is put in the set and appended to
        the file; anything else changes nothing. */
    method Add(name: string)
      requires Valid()
      modifies this
      ensures Valid()
      ensures var n := Normal(name);
        if n != [] && n !in old(artists) then artists == old(artists) + {n} && lines == old(lines) + [n]
        else artists == old(artists) && lines == old(lines)
      ensures Normal(name) == [] || Normal(name) in artists
    {
      var n := Lower(Strip(name));
      if n != [] && n !in artists {
        NormalStable(name);
        LoadedAppend(lines, n);
        artists := artists + {n};
        lines := lines + [n];
      }
    }

    /** `extract_artists(tags_str)`. */
    function ExtractArtists(tags: string): (r: seq<string>)
      reads this
      ensures tags == [] ==> r == []
      ensures Distinct(r)
      ensures forall k :: 0 <= k < |r| ==> r[k] in artists && r[k] in SplitWs(Lower(tags))
      ensures forall t :: t in SplitWs(Lower(tags)) && t in artists ==> t in r
    {
      Matched(tags, artists)
    }

    /** `assign_artists(image_items)`: tag the records of unknown artist in place. */
    method AssignArtists(items: array<Item>)
      modifies items
      ensures forall k :: 0 <= k < items.Length ==> items[k] == Assigned(old(items[k]), artists)
    {
      var i := 0;
      while i < items.Length
        invariant 0 <= i <= items.Length
        invariant forall k :: 0 <= k < i ==> items[k] == Assigned(old(items[k]), artists)
        invariant forall k :: i <= k < items.Length ==> items[k] == old(items[k])
      {
        var item := items[i];
        ghost var before := items[..];
        if item.artist == UNKNOWN {
          var matched := ExtractArtists(item.tags);
          if matched != [] {
            items[i] := item.(artist := Join(", ", matched));
          }
        }
        assert items[i] == Assigned(item, artists);
        assert forall k :: 0 <= k < items.Length && k != i ==> items[k] == before[k];
        i := i + 1;
      }
    }
  }

  // ---------------------------------------------------------------- properties

  /** A normalised name is its own normal form, and is not blank once non-empty. */
  lemma NormalStable(name: string)
    ensures Normal(Normal(name)) == Normal(name)
    ensures Normal(name) != [] ==> Strip(Normal(name)) != []
  {
    var s := Strip(name);
    var n := Lower(s);
    if n != [] {
      assert n[0] == LowerChar(s[0]) && n[|n| - 1] == LowerChar(s[|s| - 1]);
      assert s[0] !in Whitespace && s[|s| - 1] !in Whitespace;
      StripUnchanged(n);
    } else {
      StripUnchanged(n);
    }
    LowerIdempotent(s);
  }

  /** Appending an already normalised, non-empty name to the file adds exactly that name. */
  lemma LoadedAppend(lines: seq<string>, n: string)
    requires n != [] && Normal(n) == n && Strip(n) != []
    ensures Loaded(lines + [n]) == Loaded(lines) + {n}
  {
    assert (lines + [n])[..|lines|] == lines;
  }

  /** Every loaded name is a non-empty normalised line of the file. */
  lemma {:induction false} LoadedFrom(lines: seq<string>, name: string)
    requires name in Loaded(lines)
    ensures name != [] && NoUpper(name)
    ensures exists k :: 0 <= k < |lines| && name == Normal(lines[k])
    decreases |lines|
  {
    var front := lines[..|lines| - 1];
    var last := lines[|lines| - 1];
    if name in Loaded(front) {
      LoadedFrom(front, name);
      var k :| 0 <= k < |front| && name == Normal(front[k]);
      assert front[k] == lines[k];
    } else {
      assert name == Normal(last) && Strip(last) != [];
      NormalShape(last);
    }
  }

  /** The normal form of a line that is not blank is a non-empty name without capitals. */
  lemma NormalShape(line: string)
    requires Strip(line) != []
    ensures Normal(line) != [] && NoUpper(Normal(line))
  {
    var n := Normal(line);
    assert |n| == |Strip(line)|;
    forall i | 0 <= i < |n| ensures !IsUpper(n[i]) {
      assert n[i] == LowerChar(Strip(line)[i]);
    }
  }

  /** A join begins with its first part. */
  lemma JoinStart(sep: string, parts: seq<string>)
    requires |parts| >= 1
    ensures |parts[0]| <= |Join(sep, parts)| && Join(sep, parts)[..|parts[0]|] == parts[0]
  {
  }

  /** Assigning never changes anything but the artist, and, for a roster of lower-case names as
      the roster file gives, assigning twice is assigning once. */
  lemma AssignedOnlyArtist(item: Item, roster: set<string>)
    requires forall n :: n in roster ==> NoUpper(n)
    ensures Assigned(item, roster).(artist := item.artist) == item
    ensures Assigned(Assigned(item, roster), roster) == Assigned(item, roster)
  {
    var m := Matched(item.tags, roster);
    if item.artist == UNKNOWN && m != [] {
      var joined := Join(", ", m);
      assert joined != UNKNOWN by {
        JoinStart(", ", m);
        assert m[0] in roster && m[0] != [];
        assert joined[0] == m[0][0];
      }
    }
  }
}
