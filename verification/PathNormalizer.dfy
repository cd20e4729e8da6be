/** Collapsing runs of slashes by replacing pairs until none is left. */
module PathNormalizer {
  import opened Text

  predicate StartsWithPair(s: string) {
    |s| >= 2 && s[0] == '/' && s[1] == '/'
  }

  ghost predicate HasPair(s: string) {
    exists i :: 0 <= i < |s| - 1 && s[i] == '/' && s[i + 1] == '/'
  }

  /** `path.replace("//", "/")`: from the left, pairs not overlapping. */
  function Replace(s: string): (r: string)
    ensures |r| <= |s|
  {
    if s == [] then []
    else if StartsWithPair(s) then "/" + Replace(s[2..])
    else [s[0]] + Replace(s[1..])
  }

  /** Every run of slashes as one slash. */
  function Collapse(s: string): string {
    if s == [] then []
    else if StartsWithPair(s) then Collapse(s[1..])
    else [s[0]] + Collapse(s[1..])
  }

  /** `"//" in path`. */
  method ContainsPair(s: string) returns (found: bool)
    ensures found <==> HasPair(s)
  {
    var i := 0;
    while i < |s| - 1
      invariant 0 <= i
      invariant forall k :: 0 <= k < i && k < |s| - 1 ==> !(s[k] == '/' && s[k + 1] == '/')
    {
      if s[i] == '/' && s[i + 1] == '/' {
        return true;
      }
      i := i + 1;
    }
    found := false;
  }

  lemma {:induction false} ReplaceShortens(s: string)
    requires HasPair(s)
    ensures |Replace(s)| < |s|
    decreases |s|
  {
    if !StartsWithPair(s) {
      var i :| 0 <= i < |s| - 1 && s[i] == '/' && s[i + 1] == '/';
      assert s[1..][i - 1] == '/' && s[1..][i] == '/';
      ReplaceShortens(s[1..]);
    }
  }

  /** Only the first characters decide how a slash in front of a text collapses. */
  lemma CollapseCons(c: char, s: string)
    ensures Collapse([c] + s) == if c == '/' && s != [] && s[0] == '/' then Collapse(s) else [c] + Collapse(s)
  {
    assert ([c] + s)[1..] == s;
  }

  lemma ReplaceStartsWithSlash(s: string)
    ensures Replace(s) == [] <==> s == []
    ensures s != [] ==> (Replace(s)[0] == '/' <==> s[0] == '/')
  {
  }

  lemma {:induction false} ReplaceKeepsCollapse(s: string)
    ensures Collapse(Replace(s)) == Collapse(s)
    decreases |s|
  {
    if s == [] {
    } else if StartsWithPair(s) {
      ReplaceKeepsCollapse(s[2..]);
      CollapseCons('/', Replace(s[2..]));
      CollapseCons('/', s[2..]);
      ReplaceStartsWithSlash(s[2..]);
      assert s[1..] == ['/'] + s[2..];
    } else {
      ReplaceKeepsCollapse(s[1..]);
      CollapseCons(s[0], Replace(s[1..]));
      ReplaceStartsWithSlash(s[1..]);
    }
  }

  lemma {:induction false} NothingToCollapse(s: string)
    requires !HasPair(s)
    ensures Collapse(s) == s
    decreases |s|
  {
    if s != [] {
      forall i | 0 <= i < |s[1..]| - 1
        ensures !(s[1..][i] == '/' && s[1..][i + 1] == '/')
      {
        assert !(s[i + 1] == '/' && s[i + 2] == '/');
      }
      NothingToCollapse(s[1..]);
    }
  }

  /** `normalize_path`: ends, and returns the path with every run of slashes collapsed. */
  method NormalizePath(path: string) returns (r: string)
    ensures r == Collapse(path) && !HasPair(r)
  {
    r := path;
    var found := ContainsPair(r);
    while found
      invariant Collapse(r) == Collapse(path) && (found <==> HasPair(r))
      decreases |r|
    {
      ReplaceShortens(r);
      ReplaceKeepsCollapse(r);
      r := Replace(r);
      found := ContainsPair(r);
    }
    NothingToCollapse(r);
  }

  // ----- what collapsing means -----

  lemma {:induction false} CollapseStarts(s: string)
    ensures Collapse(s) == [] <==> s == []
    ensures s != [] ==> Collapse(s)[0] == s[0]
    decreases |s|
  {
    if StartsWithPair(s) {
      CollapseStarts(s[1..]);
    }
  }

  lemma {:induction false} CollapseHasNoPair(s: string)
    ensures !HasPair(Collapse(s))
    decreases |s|
  {
    if s != [] {
      CollapseHasNoPair(s[1..]);
      CollapseStarts(s[1..]);
      if !StartsWithPair(s) {
        var c := Collapse(s[1..]);
        forall i | 0 <= i < |[s[0]] + c| - 1
          ensures !(([s[0]] + c)[i] == '/' && ([s[0]] + c)[i + 1] == '/')
        {
          if i > 0 {
            assert !(c[i - 1] == '/' && c[i] == '/');
          }
        }
      }
    }
  }

  /** Normalising twice is normalising once. */
  lemma NormalizingIsIdempotent(s: string)
    ensures Collapse(Collapse(s)) == Collapse(s)
  {
    CollapseHasNoPair(s);
    NothingToCollapse(Collapse(s));
  }

  /** The segments between slashes, empty ones left out. */
  function Segments(s: string): seq<string> {
    NonEmpty(Split(s, '/'))
  }

  function NonEmpty(pieces: seq<string>): seq<string> {
    if pieces == [] then [] else (if pieces[0] == "" then [] else [pieces[0]]) + NonEmpty(pieces[1..])
  }

  lemma SplitSlash(s: string)
    ensures Split(['/'] + s, '/') == [""] + Split(s, '/')
  {
    assert (['/'] + s)[1..] == s;
  }

  lemma SplitOther(c: char, s: string)
    requires c != '/'
    ensures Split([c] + s, '/') == [[c] + Split(s, '/')[0]] + Split(s, '/')[1..]
  {
    assert ([c] + s)[1..] == s;
  }

  lemma {:induction false} CollapseKeepsFirstPiece(s: string)
    ensures Split(Collapse(s), '/')[0] == Split(s, '/')[0]
    ensures NonEmpty(Split(Collapse(s), '/')[1..]) == NonEmpty(Split(s, '/')[1..])
    decreases |s|
  {
    if s != [] {
      var c, rest := s[0], s[1..];
      assert s == [c] + rest;
      CollapseKeepsFirstPiece(rest);
      if StartsWithPair(s) {
        SplitSlash(rest);
        SplitSlash(rest[1..]);
        assert rest == ['/'] + rest[1..];
        CollapseStarts(rest);
      } else if c == '/' {
        SplitSlash(rest);
        SplitSlash(Collapse(rest));
        WholeNonEmpty(Split(rest, '/'));
        WholeNonEmpty(Split(Collapse(rest), '/'));
      } else {
        SplitOther(c, rest);
        SplitOther(c, Collapse(rest));
      }
    }
  }

  lemma WholeNonEmpty(pieces: seq<string>)
    requires pieces != []
    ensures NonEmpty(pieces) == (if pieces[0] == "" then [] else [pieces[0]]) + NonEmpty(pieces[1..])
  {
  }

  /** The segments stay what they are; the text starts and ends with a slash when it did. */
  lemma NormalizingKeepsSegments(s: string)
    ensures Segments(Collapse(s)) == Segments(s)
    ensures s != [] ==> Collapse(s) != [] && (Collapse(s)[0] == '/' <==> s[0] == '/')
    ensures s != [] ==> (Collapse(s)[|Collapse(s)| - 1] == '/' <==> s[|s| - 1] == '/')
  {
    CollapseKeepsFirstPiece(s);
    WholeNonEmpty(Split(s, '/'));
    WholeNonEmpty(Split(Collapse(s), '/'));
    CollapseStarts(s);
    CollapseEnds(s);
  }

  lemma {:induction false} CollapseEnds(s: string)
    ensures s != [] ==> Collapse(s) != [] && Collapse(s)[|Collapse(s)| - 1] == s[|s| - 1]
    decreases |s|
  {
    if |s| > 1 {
      CollapseEnds(s[1..]);
    }
  }
}
