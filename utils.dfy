/**
 * core/utils.py: tag-token cleaning and the text the tag cloud is drawn from. The `Tags`
 * column is given as its non-missing cells, in order; the CSV lookup and the drawing are not
 * modelled.
 */
module Utils {
  import opened Wrappers
  import opened PyStr

  /** Tags that carry no meaning in a cloud. */
  const STOP_WORDS: set<string> :=
    {"absurdres", "highres", "translated", "commentary_request", "check_commentary", "bilibili", "weibo"}

  /** `clean_tag(tag)`: the stripped tag, or None for a meta tag (one with `:`) or a number. */
  function CleanTag(tag: string): (r: Option<string>)
    ensures r.None? <==> ':' in Strip(tag) || IsDigitStr(Strip(tag))
    ensures r.Some? ==> r.value == Strip(tag)
  {
    var t := Strip(tag);
    if ':' in t then None
    else if IsDigitStr(t) then None
    else Some(t)
  }

  /** The cleaned tokens the cloud keeps: truthy and not a stop word. */
  predicate Kept(tag: string) {
    var c := CleanTag(tag);
    c.Some? && c.value != [] && c.value !in STOP_WORDS
  }

  /** The kept cleaned tokens of one cell's split, in order. */
  function KeptTokens(tokens: seq<string>): (r: seq<string>)
    ensures |r| <= |tokens|
    ensures forall k :: 0 <= k < |r| ==>
      r[k] != [] && ':' !in r[k] && !IsDigitStr(r[k]) && r[k] !in STOP_WORDS && Strip(r[k]) == r[k]
    decreases |tokens|
  {
    if tokens == [] then []
    else
      var front := KeptTokens(tokens[..|tokens| - 1]);
      var last := tokens[|tokens| - 1];
      if Kept(last) then
        StripIdempotent(last);
        front + [CleanTag(last).value]
      else front
  }

  /** The kept tokens of every cell, cell by cell. */
  function CloudWords(cells: seq<string>): seq<string>
    decreases |cells|
  {
    if cells == [] then []
    else CloudWords(cells[..|cells| - 1]) + KeptTokens(Split(cells[|cells| - 1], ' '))
  }

  /** Each word followed by one space. */
  function Spaced(words: seq<string>): string
    decreases |words|
  {
    if words == [] then "" else Spaced(words[..|words| - 1]) + words[|words| - 1] + " "
  }

  /** The nested token loop of `generate_cloud`, building `text_data`. */
  method CloudText(cells: seq<string>) returns (text: string)
    ensures text == Spaced(CloudWords(cells))
  {
    text := "";
    var i := 0;
    while i < |cells|
      invariant 0 <= i <= |cells|
      invariant text == Spaced(CloudWords(cells[..i]))
    {
      assert cells[..i + 1][..i] == cells[..i];
      var tokens := Split(cells[i], ' ');
      var part := CellText(tokens);
      SpacedAppend(CloudWords(cells[..i]), KeptTokens(tokens));
      text := text + part;
      i := i + 1;
    }
    assert cells[..i] == cells;
  }

  /** The inner loop over one cell's tokens. */
  method CellText(tokens: seq<string>) returns (text: string)
    ensures text == Spaced(KeptTokens(tokens))
  {
    text := "";
    var j := 0;
    while j < |tokens|
      invariant 0 <= j <= |tokens|
      invariant text == Spaced(KeptTokens(tokens[..j]))
    {
      assert tokens[..j + 1][..j] == tokens[..j];
      var cleaned := CleanTag(tokens[j]);
      if cleaned.Some? && cleaned.value != [] && cleaned.value !in STOP_WORDS {
        text := text + cleaned.value + " ";
      }
      j := j + 1;
    }
    assert tokens[..j] == tokens;
  }

  // ---------------------------------------------------------------- properties

  lemma StripIdempotent(s: string)
    ensures Strip(Strip(s)) == Strip(s)
  {
    StripUnchanged(Strip(s));
  }

  /** The empty tag and a tag of blanks come back as "", which the cloud then drops. */
  lemma CleanBlank(tag: string)
    requires forall k :: 0 <= k < |tag| ==> tag[k] in Whitespace
    ensures CleanTag(tag) == Some("") && !Kept(tag)
  {
    var l := LStrip(tag, Whitespace);
    assert l == [];
  }

  /** Cleaning a cleaned tag changes nothing. */
  lemma CleanIdempotent(tag: string)
    requires CleanTag(tag).Some?
    ensures CleanTag(CleanTag(tag).value) == CleanTag(tag)
  {
    StripIdempotent(tag);
  }

  lemma {:induction false} SpacedAppend(a: seq<string>, b: seq<string>)
    ensures Spaced(a + b) == Spaced(a) + Spaced(b)
    decreases |b|
  {
    if b == [] {
      assert a + b == a;
    } else {
      var b' := b[..|b| - 1];
      assert (a + b)[..|a + b| - 1] == a + b';
      SpacedAppend(a, b');
    }
  }

  /** No valid tag at all iff the cloud text is empty (the function then returns early). */
  lemma SpacedEmpty(words: seq<string>)
    ensures Spaced(words) == [] <==> words == []
  {
  }

  /** Every kept token of a cell's split appears among that cell's words. */
  lemma {:induction false} KeptComplete(tokens: seq<string>, k: nat)
    requires k < |tokens| && Kept(tokens[k])
    ensures CleanTag(tokens[k]).value in KeptTokens(tokens)
    decreases |tokens|
  {
    if k < |tokens| - 1 {
      KeptComplete(tokens[..|tokens| - 1], k);
    }
  }

  /** The words come from cells in cell order: the words of a longer column extend those of
      its prefix. */
  lemma {:induction false} CloudWordsAppend(a: seq<string>, b: seq<string>)
    ensures CloudWords(a + b) == CloudWords(a) + CloudWords(b)
    decreases |b|
  {
    if b == [] {
      assert a + b == a;
    } else {
      var b' := b[..|b| - 1];
      assert (a + b)[..|a + b| - 1] == a + b';
      CloudWordsAppend(a, b');
    }
  }
}
