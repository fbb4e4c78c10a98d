/**
 * Session tags. The API accepts them either as a list or as one
 * comma-separated string; the string form is split on ',', each piece
 * trimmed and the empty pieces dropped.
 */
module Tags {
  import opened Text

  /** The `tags` field of a request body as the JSON parser delivers it. */
  datatype TagsInput =
    | Absent                       // the field is missing
    | Text(s: string)              // a string, to be parsed
    | List(items: seq<string>)     // an array, stored as it is
    | Malformed                    // null, a number or an object: refused by the validator

  /** A tag the string form can produce: non-empty, no surrounding whitespace, no comma. */
  predicate IsCleanTag(t: string) {
    t != [] && IsTrimmed(t) && ',' !in t
  }

  /** `.map(tag => tag.trim()).filter(tag => tag)` over the pieces. */
  function Normalize(pieces: seq<string>): (r: seq<string>)
    ensures |r| <= |pieces|
    ensures forall t :: t in r ==> t != [] && IsTrimmed(t)
  {
    if pieces == [] then []
    else
      var t := Trim(pieces[0]);
      (if t == [] then [] else [t]) + Normalize(pieces[1..])
  }

  /** Trimming never introduces a comma, so comma-free pieces normalise to comma-free tags. */
  lemma {:induction false} NormalizeNoComma(pieces: seq<string>)
    requires forall p :: p in pieces ==> ',' !in p
    ensures forall t :: t in Normalize(pieces) ==> ',' !in t
  {
    if pieces != [] {
      TrimChars(pieces[0]);
      assert pieces[0] in pieces;
      NormalizeNoComma(pieces[1..]);
    }
  }

  /** `tags.split(',').map(tag => tag.trim()).filter(tag => tag)`. */
  function Parse(s: string): (r: seq<string>)
    ensures |r| <= |Split(s, ',')|
    ensures forall t :: t in r ==> t != [] && IsTrimmed(t)
  {
    Normalize(Split(s, ','))
  }

  /** Every tag parsed from a string is non-empty, has no surrounding whitespace and no comma. */
  lemma {:induction false} ParseClean(s: string)
    ensures forall t :: t in Parse(s) ==> IsCleanTag(t)
  {
    NormalizeNoComma(Split(s, ','));
  }

  /** `parsedTags || []`: what a save stores for each accepted form of the field. */
  function Stored(tags: TagsInput): (r: seq<string>)
    requires !tags.Malformed?
    ensures tags.Absent? ==> r == []
    ensures tags.List? ==> r == tags.items
  {
    match tags
    case Absent => []
    case Text(s) => Parse(s)
    case List(items) => items
  }

  lemma {:induction false} NormalizeCons(x: string, ys: seq<string>)
    ensures Normalize([x] + ys) == (if Trim(x) == [] then [] else [Trim(x)]) + Normalize(ys)
  {
    assert ([x] + ys)[1..] == ys;
  }

  lemma {:induction false} NoCommaAfterSpaces(w: string, t: string)
    requires AllSpace(w) && ',' !in t
    ensures ',' !in w + t
  {
  }

  /** The first piece of the joined text trims to the first tag. */
  lemma {:induction false} FirstPiece(w: string, t0: string, tail: string)
    requires w == "" || w == " "
    requires IsCleanTag(t0)
    ensures Normalize(Split(w + t0 + [','] + tail, ',')) == [t0] + Normalize(Split(tail, ','))
  {
    var x := w + t0;
    assert AllSpace(w);
    TrimSpacePrefixed(w, t0);
    NoCommaAfterSpaces(w, t0);
    SplitPrefix(x, tail, ',');
    NormalizeCons(x, Split(tail, ','));
  }

  lemma {:induction false} LastPiece(w: string, t0: string)
    requires w == "" || w == " "
    requires IsCleanTag(t0)
    ensures Normalize(Split(w + t0, ',')) == [t0]
  {
    var x := w + t0;
    assert AllSpace(w);
    TrimSpacePrefixed(w, t0);
    NoCommaAfterSpaces(w, t0);
    SplitNoSeparator(x, ',');
    NormalizeCons(x, []);
  }

  lemma {:induction false} JoinCommaSpace(tags: seq<string>)
    requires |tags| >= 2
    ensures Join(tags, ", ") == tags[0] + [','] + (" " + Join(tags[1..], ", "))
  {
    assert ", " == [','] + " ";
  }

  lemma {:induction false} JoinedStep(w: string, tags: seq<string>)
    requires w == "" || w == " "
    requires |tags| >= 2 && IsCleanTag(tags[0])
    ensures Normalize(Split(w + Join(tags, ", "), ',')) == [tags[0]] + Normalize(Split(" " + Join(tags[1..], ", "), ','))
  {
    var tail := " " + Join(tags[1..], ", ");
    JoinCommaSpace(tags);
    assert w + Join(tags, ", ") == w + tags[0] + [','] + tail;
    FirstPiece(w, tags[0], tail);
  }

  /** Every tag in the list is clean, stated element by element from the front. */
  predicate AllClean(tags: seq<string>) {
    tags == [] || (IsCleanTag(tags[0]) && AllClean(tags[1..]))
  }

  lemma {:induction false} AllCleanFrom(tags: seq<string>)
    requires forall t :: t in tags ==> IsCleanTag(t)
    ensures AllClean(tags)
  {
    if tags != [] {
      assert tags[0] in tags;
      assert forall t :: t in tags[1..] ==> t in tags;
      AllCleanFrom(tags[1..]);
    }
  }

  /** The pieces of a ", "-joined list of clean tags, after a whitespace prefix, normalise back to the tags. */
  lemma {:induction false} NormalizeJoined(w: string, tags: seq<string>)
    requires w == "" || w == " "
    requires |tags| >= 1 && AllClean(tags)
    ensures Normalize(Split(w + Join(tags, ", "), ',')) == tags
    decreases |tags|, 1
  {
    if |tags| == 1 {
      LastPiece(w, tags[0]);
    } else {
      NormalizeJoinedMore(w, tags);
    }
  }

  lemma {:induction false} NormalizeJoinedMore(w: string, tags: seq<string>)
    requires w == "" || w == " "
    requires |tags| >= 2 && AllClean(tags)
    ensures Normalize(Split(w + Join(tags, ", "), ',')) == tags
    decreases |tags|, 0
  {
    JoinedStep(w, tags);
    NormalizeJoined(" ", tags[1..]);
    assert tags == [tags[0]] + tags[1..];
  }

  /** Joining clean tags with ", " (as the editor does when it loads a session) and parsing the text gives the tags back. */
  lemma {:induction false} ParseJoin(tags: seq<string>)
    requires forall t :: t in tags ==> IsCleanTag(t)
    ensures Parse(Join(tags, ", ")) == tags
  {
    if tags == [] {
      assert Split("", ',') == [[]];
    } else {
      AllCleanFrom(tags);
      assert "" + Join(tags, ", ") == Join(tags, ", ");
      NormalizeJoined("", tags);
    }
  }

  /** Parsing is stable under a join/parse round trip: re-saving a loaded session keeps its tags. */
  lemma {:induction false} ParseIdempotent(s: string)
    ensures Parse(Join(Parse(s), ", ")) == Parse(s)
  {
    ParseClean(s);
    ParseJoin(Parse(s));
  }

  /** A worked example: "a, b ,, c" becomes ["a", "b", "c"]. */
  lemma {:induction false} ParseExample()
    ensures Parse("a, b ,, c") == ["a", "b", "c"]
  {
    ExampleSplit();
    ExampleNormalizeTail();
    TrimPlainLetter();
    NormalizeCons("a", [" b ", "", " c"]);
  }

  lemma {:induction false} ExampleNormalizeTail()
    ensures Normalize([" b ", "", " c"]) == ["b", "c"]
  {
    TrimPaddedLetter();
    ExampleNormalizeLast();
    NormalizeCons(" b ", ["", " c"]);
  }

  lemma {:induction false} ExampleNormalizeLast()
    ensures Normalize(["", " c"]) == ["c"]
  {
    TrimLeadingSpace();
    TrimOfEmpty();
    NormalizeCons(" c", []);
    NormalizeCons("", [" c"]);
  }

  lemma {:induction false} ExampleSplit()
    ensures Split("a, b ,, c", ',') == ["a", " b ", "", " c"]
  {
    ExampleSplitTail();
    assert "a, b ,, c" == "a" + [','] + " b ,, c";
    SplitPrefix("a", " b ,, c", ',');
  }

  lemma {:induction false} ExampleSplitTail()
    ensures Split(" b ,, c", ',') == [" b ", "", " c"]
  {
    SplitNoSeparator(" c", ',');
    assert ", c" == "" + [','] + " c";
    SplitPrefix("", " c", ',');
    assert " b ,, c" == " b " + [','] + ", c";
    SplitPrefix(" b ", ", c", ',');
  }

  /** The four trims the worked example needs, one per kind of piece. */
  lemma {:induction false} TrimPlainLetter()
    ensures Trim("a") == "a"
  {
    assert IsTrimmed("a");
  }

  lemma {:induction false} TrimOfEmpty()
    ensures Trim("") == ""
  {
    assert AllSpace("");
  }

  lemma {:induction false} TrimLeadingSpace()
    ensures Trim(" c") == "c"
  {
    assert AllSpace(" ");
    TrimSpacePrefixed(" ", "c");
  }

  lemma {:induction false} TrimPaddedLetter()
    ensures Trim(" b ") == "b"
  {
    assert AllSpace(" ");
    TrimStartSpaces(" ", "b ");
    assert " b " == " " + "b ";
  }
}
