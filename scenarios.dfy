/** Concrete cells, each showing one behaviour of the rules on a small input. */
module Scenarios {
  import opened Wrappers
  import opened CharClass
  import opened Splitter
  import opened Grammar
  import opened Lines
  import opened Diagnostics
  import opened Rules

  /** A comma, a space and a name character on both sides make a valid author. */
  lemma CommaSeparatedAuthorPasses()
    ensures AuthorFormatOk("Doe, Jane")
  {
    assert NamePairAt("Doe, Jane", 2);
  }

  /** Without the comma no window matches, so an author written "Doe Jane" is reported. */
  lemma AuthorWithoutCommaFails()
    ensures !AuthorFormatOk("Doe Jane")
  {
    var s := "Doe Jane";
    forall i | 0 <= i < |s|
      ensures !NamePairAt(s, i) && !OrganizationAt(s, i)
    {
    }
    assert Anchored(s) == s;
  }

  /** The date patterns check digits only: a thirteenth month is accepted. */
  lemma ThirteenthMonthAccepted()
    ensures DateFormatOk("2020-13")
  {
    assert YearMonthForm(Anchored("2020-13"));
  }

  /** With one header line, the first data row is reported as line 3 of the file. */
  lemma FirstRowIsLineThree()
    ensures LineOf(0, 1) == 3
  {
  }

  /** A trailing newline is ignored by the anchored patterns. */
  lemma TrailingNewlineIgnored()
    ensures DateFormatOk("2020\n")
  {
    assert Anchored("2020\n") == "2020";
  }

  /** A cell with a media-type delimiter is split and each piece is looked up on its own. */
  lemma TwoMediaTypesSplit()
    ensures Split("a * b") == ["a", "b"]
  {
    assert DelimiterAt("a * b", 1);
    assert FindDelimiter("a * b", 0) == FindDelimiter("a * b", 1);
    assert "a * b"[..1] == "a" && "a * b"[4..] == "b";
    assert FindDelimiter("b", 0).None?;
  }

  /** "audio * movie" is split, "audio" is listed and "movie" is not: one finding. */
  lemma MediaTypeCellFindings()
    ensures CellKinds(MediaType, "audio" + " * " + "movie", NoPicklists) == [MediaTypeNotListed]
  {
    assert IsMediaType("audio");
    assert !IsMediaType("movie");
    MediaTypePair("audio", "movie");
  }

  /** The findings of a media-type cell holding two space-free words around one delimiter. */
  lemma MediaTypePair(x: string, y: string)
    requires NoSpace(x) && NoSpace(y) && x != []
    ensures CellKinds(MediaType, x + " * " + y, NoPicklists)
         == (if IsMediaType(x) then [] else [MediaTypeNotListed])
          + (if IsMediaType(y) then [] else [MediaTypeNotListed])
  {
    var cell := x + " * " + y;
    SplitTwo(x, y);
    assert cell[|x| + 1] == '*';
    assert cell != "";
    assert [x, y][..1] == [x];
    assert [x][..0] == [];
    assert PerItem([x], IsMediaType, MediaTypeNotListed) == (if IsMediaType(x) then [] else [MediaTypeNotListed]);
    assert CellKinds(MediaType, cell, NoPicklists) == PerItem([x, y], IsMediaType, MediaTypeNotListed);
  }

  /** Two space-free words around one delimiter split into exactly those words. */
  lemma SplitTwo(x: string, y: string)
    requires NoSpace(x) && NoSpace(y) && x != []
    ensures Split(x + " * " + y) == [x, y]
  {
    var s := x + " * " + y;
    var n := |x|;
    assert DelimiterAt(s, n);
    NoSpaceNoDelimiter(s, n);
    assert s[..n] == x;
    assert s[n + 3..] == y;
    assert FindDelimiter(s, 0) == Some(n);
    assert forall k: nat :: !DelimiterAt(y, k) by {
      forall k: nat ensures !DelimiterAt(y, k) {
        if k < |y| {
          assert !IsSpace(y[k]);
        }
      }
    }
  }
}
