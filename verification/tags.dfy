/** Tag parsing (`parseTags`, script.js:121-127) and the text the edit form
    shows for a tag list (`task.tags.join(', ')`, script.js:620). */
module Tags {
  import opened Text
  import Seqs

  /** A tag as `parseTags` produces it: non-empty, no surrounding white space,
      lower case, and free of the comma that separates tags. */
  predicate IsTag(t: string) {
    t != [] && IsTrimmed(t) && IsLowerCase(t) && ',' !in t
  }

  /** `.map(tag => tag.trim())`. */
  function TrimEach(parts: seq<string>): (r: seq<string>)
    ensures |r| == |parts|
    ensures forall k :: 0 <= k < |parts| ==> r[k] == Trim(parts[k])
  {
    Seqs.Map(parts, Trim)
  }

  /** `.map(tag => tag.toLowerCase())`. */
  function LowerEach(parts: seq<string>): (r: seq<string>)
    ensures |r| == |parts|
    ensures forall k :: 0 <= k < |parts| ==> r[k] == Lower(parts[k])
  {
    Seqs.Map(parts, Lower)
  }

  predicate NonEmpty(s: string) {
    s != []
  }

  /** `.filter(tag => tag.length > 0)`. */
  function DropEmpty(parts: seq<string>): seq<string> {
    Seqs.Filter(parts, NonEmpty)
  }

  /** `parseTags`: no tags for the empty text; otherwise the comma-separated
      pieces, trimmed, with the empty ones dropped, lower-cased. */
  function ParseTags(text: string): (tags: seq<string>)
    ensures text == [] ==> tags == []
    ensures |tags| <= |Split(text, ',')|
  {
    if text == [] then []
    else LowerEach(DropEmpty(TrimEach(Split(text, ','))))
  }

  /** The pipeline of `parseTags` over the comma-separated pieces gives its
      result for every text, the empty one included. */
  lemma ParseTagsPieces(text: string)
    ensures ParseTags(text) == LowerEach(DropEmpty(TrimEach(Split(text, ','))))
  {
    if text == [] {
      assert TrimEach([[]]) == [Trim([])] == [[]];
      assert DropEmpty([[]]) == [];
    }
  }

  /** The tags of a text are the tags of the text before a comma followed by
      the tags of the text after it: pieces are kept in order. */
  lemma ParseTagsAppend(a: string, b: string)
    ensures ParseTags(a + [','] + b) == ParseTags(a) + ParseTags(b)
  {
    ParseTagsPieces(a);
    ParseTagsPieces(b);
    ParseTagsPieces(a + [','] + b);
    SplitAppend(a, b, ',');
    var pa, pb := Split(a, ','), Split(b, ',');
    Seqs.MapAppend(pa, pb, Trim);
    Seqs.FilterAppend(TrimEach(pa), TrimEach(pb), NonEmpty);
    Seqs.MapAppend(DropEmpty(TrimEach(pa)), DropEmpty(TrimEach(pb)), Lower);
  }

  /** A comma-free piece gives no tag when it is blank, and otherwise the one
      tag that is its trimmed, lower-cased text. */
  lemma ParseTagsPiece(piece: string)
    requires ',' !in piece
    ensures ParseTags(piece) == if Trim(piece) == [] then [] else [Lower(Trim(piece))]
  {
    ParseTagsPieces(piece);
    SplitNone(piece, ',');
    var t := Trim(piece);
    assert TrimEach([piece]) == [t];
    if t == [] {
      assert DropEmpty([t]) == [];
    } else {
      assert DropEmpty([t]) == [t];
      assert LowerEach([t]) == [Lower(t)];
    }
  }

  /** Lower-casing keeps a trimmed, non-empty, comma-free text so, and makes it a tag. */
  lemma LowerMakesTag(d: string)
    requires d != [] && IsTrimmed(d) && ',' !in d
    ensures IsTag(Lower(d))
  {
    var l := Lower(d);
    LowerKeepsSpaceAndComma(d);
    assert !IsSpace(l[0]) && !IsSpace(l[|l| - 1]);
    forall i | 0 <= i < |l| ensures l[i] != ',' {
      assert d[i] != ',';
    }
  }

  /** Every tag `parseTags` returns is non-empty, trimmed, lower case and
      comma-free. */
  lemma ParseTagsWellFormed(text: string)
    ensures forall k :: 0 <= k < |ParseTags(text)| ==> IsTag(ParseTags(text)[k])
  {
    if text != [] {
      var parts := Split(text, ',');
      var trimmed := TrimEach(parts);
      var kept := DropEmpty(trimmed);
      forall k | 0 <= k < |kept|
        ensures IsTag(Lower(kept[k]))
      {
        var d := kept[k];
        assert d in trimmed && d != [];
        var j :| 0 <= j < |trimmed| && trimmed[j] == d;
        assert ',' !in parts[j];
        TrimSubset(parts[j]);
        LowerMakesTag(d);
      }
    }
  }

  /** `tags.join(', ')`. */
  function JoinTags(tags: seq<string>): (text: string)
    ensures tags == [] ==> text == []
    ensures |tags| >= 1 ==> |tags[0]| <= |text| && text[..|tags[0]|] == tags[0]
    ensures |tags| >= 2 ==> |tags[0]| + 2 <= |text| && text[|tags[0]|..|tags[0]| + 2] == ", "
  {
    var text := Join(tags, ", ");
    assert |tags| >= 2 ==> text == tags[0] + ", " + Join(tags[1..], ", ");
    text
  }

  function Spaced(parts: seq<string>): (r: seq<string>)
    ensures |r| == |parts|
  {
    seq(|parts|, k requires 0 <= k < |parts| => " " + parts[k])
  }

  lemma SpacedCons(parts: seq<string>)
    requires |parts| >= 1
    ensures Spaced(parts) == [" " + parts[0]] + Spaced(parts[1..])
  {
  }

  /** A joined list of two or more tags is the first tag, a comma, a blank and
      the join of the rest. */
  lemma JoinTagsCons(tags: seq<string>)
    requires |tags| >= 2
    ensures JoinTags(tags) == tags[0] + ([','] + (" " + JoinTags(tags[1..])))
  {
  }

  /** The pieces after a comma and a blank: an empty piece ends at the comma
      and the blank is glued to the first piece of what follows. */
  lemma SplitCommaBlank(rest: string)
    ensures Split([','] + (" " + rest), ',') == [[]] + ([" " + Split(rest, ',')[0]] + Split(rest, ',')[1..])
  {
    SplitAfterSeparator(" " + rest, ',');
    SplitPrefix(" ", rest, ',');
  }

  /** The pieces of a joined tag list: the first tag, then every further tag
      with the blank that followed its comma. */
  lemma {:induction false} SplitJoinedTags(tags: seq<string>)
    requires |tags| >= 1
    requires forall k :: 0 <= k < |tags| ==> ',' !in tags[k]
    ensures Split(JoinTags(tags), ',') == [tags[0]] + Spaced(tags[1..])
    decreases |tags|
  {
    if |tags| == 1 {
      SplitNone(tags[0], ',');
    } else {
      var rest := JoinTags(tags[1..]);
      SplitJoinedTags(tags[1..]);
      JoinTagsCons(tags);
      SplitPrefix(tags[0], [','] + (" " + rest), ',');
      SplitCommaBlank(rest);
      assert tags[0] + [] == tags[0];
      SpacedCons(tags[1..]);
    }
  }

  /** A blank before a trimmed non-empty text is all `trim` removes. */
  lemma TrimSpaced(t: string)
    requires t != [] && IsTrimmed(t)
    ensures Trim(" " + t) == t
  {
    assert (" " + t)[1..] == t;
    assert TrimStart(" " + t) == TrimStart(t) == t;
  }

  /** Trimming the pieces of a joined tag list gives the tags back. */
  lemma TrimJoinedPieces(tags: seq<string>)
    requires |tags| >= 1
    requires forall k :: 0 <= k < |tags| ==> IsTag(tags[k])
    ensures TrimEach([tags[0]] + Spaced(tags[1..])) == tags
  {
    var parts := [tags[0]] + Spaced(tags[1..]);
    forall k | 0 <= k < |tags|
      ensures TrimEach(parts)[k] == tags[k]
    {
      if k > 0 {
        assert parts[k] == " " + tags[k];
        TrimSpaced(tags[k]);
      }
    }
  }

  /** Showing a well-formed tag list in the edit form and parsing the text back
      gives the same list, in the same order. */
  lemma ParseJoinedTags(tags: seq<string>)
    requires forall k :: 0 <= k < |tags| ==> IsTag(tags[k])
    ensures ParseTags(JoinTags(tags)) == tags
  {
    if tags != [] {
      var text := JoinTags(tags);
      SplitJoinedTags(tags);
      assert text != [];
      TrimJoinedPieces(tags);
      assert TrimEach(Split(text, ',')) == tags;
      Seqs.FilterAll(tags, NonEmpty);
      assert DropEmpty(tags) == tags;
      assert LowerEach(tags) == tags;
    }
  }

  /** Tags parsed once, shown in the edit form and parsed again are unchanged. */
  lemma ReparseTags(text: string)
    ensures ParseTags(JoinTags(ParseTags(text))) == ParseTags(text)
  {
    ParseTagsWellFormed(text);
    ParseJoinedTags(ParseTags(text));
  }

  // Filtering and mapping short lists, for the worked example below.

  lemma FilterDropKeep<T>(c: T, d: T, keep: T -> bool)
    requires !keep(c) && keep(d)
    ensures Seqs.Filter([c, d], keep) == [d]
  {
    Seqs.FilterCons(d, [], keep);
    Seqs.FilterCons(c, [d], keep);
    assert [c] + [d] == [c, d];
  }

  /** Filtering four elements of which only the third fails drops just that one. */
  lemma FilterDropsThird<T>(a: T, b: T, c: T, d: T, keep: T -> bool)
    requires keep(a) && keep(b) && !keep(c) && keep(d)
    ensures Seqs.Filter([a, b, c, d], keep) == [a, b, d]
  {
    FilterKeepDropKeep(b, c, d, keep);
    Seqs.FilterCons(a, [b, c, d], keep);
    assert [a] + [b, c, d] == [a, b, c, d];
  }

  lemma FilterKeepDropKeep<T>(b: T, c: T, d: T, keep: T -> bool)
    requires keep(b) && !keep(c) && keep(d)
    ensures Seqs.Filter([b, c, d], keep) == [b, d]
  {
    FilterDropKeep(c, d, keep);
    Seqs.FilterCons(b, [c, d], keep);
    assert [b] + [c, d] == [b, c, d];
  }

  lemma MapThree<T, U>(a: T, b: T, c: T, f: T -> U)
    ensures Seqs.Map([a, b, c], f) == [f(a), f(b), f(c)]
  {
    var r := Seqs.Map([a, b, c], f);
    assert r[0] == f(a) && r[1] == f(b) && r[2] == f(c);
  }

  lemma MapFour<T, U>(a: T, b: T, c: T, d: T, f: T -> U)
    ensures Seqs.Map([a, b, c, d], f) == [f(a), f(b), f(c), f(d)]
  {
    var r := Seqs.Map([a, b, c, d], f);
    assert r[0] == f(a) && r[1] == f(b) && r[2] == f(c) && r[3] == f(d);
  }

  lemma ExampleSplit()
    ensures Split(" Work, URGENT ,, home ", ',') == [" Work", " URGENT ", "", " home "]
  {
    var parts := [" Work", " URGENT ", "", " home "];
    assert Join(parts, [',']) == " Work, URGENT ,, home ";
    SplitJoin(parts, ',');
  }

  /** Blanks on both sides of a trimmed non-empty text are all `trim` removes. */
  lemma TrimPadded(t: string)
    requires t != [] && IsTrimmed(t)
    ensures Trim(" " + t + " ") == t
  {
    var s := " " + t + " ";
    assert s[1..] == t + " ";
    assert TrimStart(t + " ") == t + " ";
    assert (t + " ")[..|t|] == t;
    assert TrimEnd(t + " ") == TrimEnd(t) == t;
  }

  lemma ExamplePieces()
    ensures " Work" == " " + "Work"
    ensures " URGENT " == " " + "URGENT" + " "
    ensures " home " == " " + "home" + " "
  {
  }

  lemma ExampleTrimUrgent()
    ensures Trim(" URGENT ") == "URGENT"
  {
    assert IsTrimmed("URGENT");
    TrimPadded("URGENT");
    ExamplePieces();
  }

  lemma ExampleTrimHome()
    ensures Trim(" home ") == "home"
  {
    assert IsTrimmed("home");
    TrimPadded("home");
    ExamplePieces();
  }

  lemma ExampleTrimWork()
    ensures Trim(" Work") == "Work"
  {
    assert IsTrimmed("Work");
    TrimSpaced("Work");
    ExamplePieces();
  }

  lemma ExampleTrim()
    ensures TrimEach([" Work", " URGENT ", "", " home "]) == ["Work", "URGENT", "", "home"]
  {
    MapFour(" Work", " URGENT ", "", " home ", Trim);
    ExampleTrimWork();
    ExampleTrimUrgent();
    ExampleTrimHome();
    assert Trim("") == "";
  }

  lemma ExampleLowerWork()
    ensures Lower("Work") == "work"
  {
    var l := Lower("Work");
    assert l[0] == 'w' && l[1] == 'o' && l[2] == 'r' && l[3] == 'k';
  }

  lemma ExampleLowerUrgent()
    ensures Lower("URGENT") == "urgent"
  {
    var u := Lower("URGENT");
    assert u[0] == 'u' && u[1] == 'r' && u[2] == 'g' && u[3] == 'e' && u[4] == 'n' && u[5] == 't';
  }

  lemma ExampleDropEmpty()
    ensures DropEmpty(["Work", "URGENT", "", "home"]) == ["Work", "URGENT", "home"]
  {
    assert NonEmpty("Work") && NonEmpty("URGENT") && !NonEmpty("") && NonEmpty("home");
    FilterDropsThird("Work", "URGENT", "", "home", NonEmpty);
  }

  lemma ExampleLowerThree()
    ensures LowerEach(["Work", "URGENT", "home"]) == ["work", "urgent", "home"]
  {
    MapThree("Work", "URGENT", "home", Lower);
    ExampleLowerWork();
    ExampleLowerUrgent();
    assert Lower("home") == "home" by {
      assert IsLowerCase("home");
    }
  }

  lemma ExampleLower()
    ensures LowerEach(DropEmpty(["Work", "URGENT", "", "home"])) == ["work", "urgent", "home"]
  {
    ExampleDropEmpty();
    ExampleLowerThree();
  }

  /** The example `" Work, URGENT ,, home "` parses to `["work", "urgent", "home"]`. */
  lemma ParseTagsExample()
    ensures ParseTags(" Work, URGENT ,, home ") == ["work", "urgent", "home"]
  {
    ExampleSplit();
    ExampleTrim();
    ExampleLower();
  }
}
