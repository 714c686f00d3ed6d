/** The navigation bar: labels built from the section ids, the scroll spy
    that marks the first section crossing the line 100 pixels below the top
    of the window, nav clicks, and the mobile menu flag. */
module Navbar {
  import opened Base

  /** The section ids, in page order; also the nav items. */
  const Sections: seq<string> := ["home", "category", "aboutus", "contactus"]

  /** The line, in pixels from the top of the window, that marks a section
      as the one being read. */
  const SpyLine := 100

  // ---------------------------------------------------------------------
  // Labels
  // ---------------------------------------------------------------------

  /** `pat` occurs in `s` at index `i`. */
  predicate OccursAt(s: string, pat: string, i: int) {
    0 <= i && i + |pat| <= |s| && s[i..i + |pat|] == pat
  }

  /** Dropping the first character shifts every occurrence one place left. */
  lemma ShiftOccurrence(s: string, pat: string, j: int)
    requires |s| > 0 && 1 <= j
    ensures OccursAt(s, pat, j) <==> OccursAt(s[1..], pat, j - 1)
  {
    if j + |pat| <= |s| {
      assert s[j..j + |pat|] == s[1..][j - 1..j - 1 + |pat|];
    }
  }

  /** The index of the first occurrence of `pat` in `s`, if any. */
  function FindFirst(s: string, pat: string): (r: Option<nat>)
    ensures r.Some? ==> OccursAt(s, pat, r.value)
    ensures r.Some? ==> forall j :: 0 <= j < r.value ==> !OccursAt(s, pat, j)
    ensures r.None? ==> forall j :: !OccursAt(s, pat, j)
    decreases |s|
  {
    if |s| < |pat| then None
    else if s[..|pat|] == pat then Some(0)
    else
      var rest := FindFirst(s[1..], pat);
      assert forall j :: 1 <= j ==> (OccursAt(s, pat, j) <==> OccursAt(s[1..], pat, j - 1)) by {
        forall j | 1 <= j ensures OccursAt(s, pat, j) <==> OccursAt(s[1..], pat, j - 1) {
          ShiftOccurrence(s, pat, j);
        }
      }
      if rest.None? then None else Some(rest.value + 1)
  }

  /** `String.prototype.replace` with a string pattern: only the first
      occurrence is replaced. */
  function ReplaceFirst(s: string, pat: string, rep: string): string {
    match FindFirst(s, pat)
    case None => s
    case Some(i) => s[..i] + rep + s[i + |pat|..]
  }

  /** `item.charAt(0).toUpperCase() + item.slice(1).replace("us", " Us")`. */
  function NavLabel(item: string): string {
    FirstLetterUpper(item) + ReplaceFirst(if item == [] then [] else item[1..], "us", " Us")
  }

  /** Without "us" after its first letter, an item's label is the item with
      that letter upper-cased. */
  lemma LabelWithoutUs(item: string)
    requires |item| > 0 && forall j :: !OccursAt(item[1..], "us", j)
    ensures NavLabel(item) == [UpperAscii(item[0])] + item[1..]
  {
    assert FindFirst(item[1..], "us").None?;
  }

  /** With "us" first occurring after the first letter at index `j` of the
      rest, that occurrence alone becomes " Us", and the label is one
      character longer than the item. */
  lemma {:induction false} LabelReplacesFirstUs(item: string, j: nat)
    requires |item| > 0 && OccursAt(item[1..], "us", j)
    requires forall k :: 0 <= k < j ==> !OccursAt(item[1..], "us", k)
    ensures NavLabel(item) == [UpperAscii(item[0])] + item[1..j + 1] + " Us" + item[j + 3..]
    ensures |NavLabel(item)| == |item| + 1
  {
    var rest := item[1..];
    var f := FindFirst(rest, "us");
    assert f == Some(j);
    assert rest[..j] == item[1..j + 1] && rest[j + 2..] == item[j + 3..];
  }

  /** An item made of a first letter, a stretch in which "us" does not
      start, then "us" and a tail: only that "us" is replaced. */
  lemma LabelOfParts(c: char, pre: string, post: string)
    requires forall k :: 0 <= k < |pre| ==> pre[k] != 'u' || (pre + "u")[k + 1] != 's'
    ensures NavLabel([c] + pre + "us" + post) == [UpperAscii(c)] + pre + " Us" + post
  {
    var item := [c] + pre + "us" + post;
    assert item[1..] == pre + "us" + post;
    var rest := item[1..];
    assert OccursAt(rest, "us", |pre|) by { assert rest[|pre|..|pre| + 2] == "us"; }
    forall k | 0 <= k < |pre| ensures !OccursAt(rest, "us", k) {
      assert rest[k..k + 2][0] == pre[k] && rest[k..k + 2][1] == (pre + "u")[k + 1];
    }
    LabelReplacesFirstUs(item, |pre|);
    assert item[1..|pre| + 1] == pre && item[|pre| + 3..] == post;
  }

  /** A first letter followed by a stretch without any 'u'. */
  lemma {:induction false} LabelWithoutU(c: char, rest: string)
    requires forall k :: 0 <= k < |rest| ==> rest[k] != 'u'
    ensures NavLabel([c] + rest) == [UpperAscii(c)] + rest
  {
    var item := [c] + rest;
    assert item[1..] == rest;
    forall j ensures !OccursAt(rest, "us", j) {
      if 0 <= j && j + 2 <= |rest| {
        assert rest[j..j + 2][0] == rest[j];
      }
    }
    LabelWithoutUs(item);
  }

  /** How each of the four items splits into the parts the lemmas above
      take; kept apart from the label goals so that each proof stays small. */
  lemma ItemParts()
    ensures "home" == ['h'] + "ome" && (forall k :: 0 <= k < |"ome"| ==> "ome"[k] != 'u')
    ensures [UpperAscii('h')] + "ome" == "Home"
    ensures "category" == ['c'] + "ategory" && (forall k :: 0 <= k < |"ategory"| ==> "ategory"[k] != 'u')
    ensures [UpperAscii('c')] + "ategory" == "Category"
    ensures "aboutus" == ['a'] + "bout" + "us" + ""
    ensures forall k :: 0 <= k < |"bout"| ==> "bout"[k] != 'u' || ("bout" + "u")[k + 1] != 's'
    ensures [UpperAscii('a')] + "bout" + " Us" + "" == "About Us"
    ensures "contactus" == ['c'] + "ontact" + "us" + ""
    ensures forall k :: 0 <= k < |"ontact"| ==> "ontact"[k] != 'u' || ("ontact" + "u")[k + 1] != 's'
    ensures [UpperAscii('c')] + "ontact" + " Us" + "" == "Contact Us"
  {
  }

  /** The four labels the bar shows. */
  lemma HomeLabel()
    ensures NavLabel("home") == "Home"
  {
    ItemParts();
    LabelWithoutU('h', "ome");
  }

  lemma CategoryLabel()
    ensures NavLabel("category") == "Category"
  {
    ItemParts();
    LabelWithoutU('c', "ategory");
  }

  lemma AboutUsLabel()
    ensures NavLabel("aboutus") == "About Us"
  {
    ItemParts();
    LabelOfParts('a', "bout", "");
  }

  lemma ContactUsLabel()
    ensures NavLabel("contactus") == "Contact Us"
  {
    ItemParts();
    LabelOfParts('c', "ontact", "");
  }

  // ---------------------------------------------------------------------
  // Scroll spy
  // ---------------------------------------------------------------------

  /** The bounding rectangle of a section, in whole pixels. */
  datatype Rect = Rect(top: int, bottom: int)

  /** The section is crossed by the spy line. */
  predicate Crossed(r: Rect) { r.top <= SpyLine && r.bottom >= SpyLine }

  /** Section `s` exists on the page and is crossed by the spy line;
      `rects` holds the rectangles of the sections that exist. */
  predicate Qualifies(rects: map<string, Rect>, s: string) {
    s in rects && Crossed(rects[s])
  }

  /** The first of `sections` that qualifies, if any. */
  function FirstQualifying(sections: seq<string>, rects: map<string, Rect>): (r: Option<string>)
    ensures r.Some? <==> exists k :: 0 <= k < |sections| && Qualifies(rects, sections[k])
    ensures r.Some? ==> exists k :: 0 <= k < |sections| && sections[k] == r.value && Qualifies(rects, r.value)
                                    && forall m :: 0 <= m < k ==> !Qualifies(rects, sections[m])
  {
    if sections == [] then None
    else if Qualifies(rects, sections[0]) then Some(sections[0])
    else
      var rest := FirstQualifying(sections[1..], rects);
      assert forall k :: 1 <= k < |sections| ==> sections[k] == sections[1..][k - 1];
      assert rest.Some? ==> exists k :: 0 <= k < |sections| && sections[k] == rest.value && Qualifies(rects, rest.value)
                                        && forall m :: 0 <= m < k ==> !Qualifies(rects, sections[m]) by {
        if rest.Some? {
          var k :| 0 <= k < |sections[1..]| && sections[1..][k] == rest.value && Qualifies(rects, rest.value)
                   && forall m :: 0 <= m < k ==> !Qualifies(rects, sections[1..][m]);
          assert sections[k + 1] == rest.value;
        }
      }
      rest
  }

  /** Exactly one of the sections can be crossed when they do not overlap,
      so the order of the scan then does not matter: the section picked is
      the one under the line. */
  lemma {:induction false} SpyPicksSectionUnderLine(sections: seq<string>, rects: map<string, Rect>, s: string)
    requires s in sections && Qualifies(rects, s)
    requires forall t :: t in sections && t != s ==> !Qualifies(rects, t)
    ensures FirstQualifying(sections, rects) == Some(s)
  {
    var r := FirstQualifying(sections, rects);
    assert r.Some?;
  }

  // ---------------------------------------------------------------------
  // The bar
  // ---------------------------------------------------------------------

  class NavBar {
    var isMenuOpen: bool
    var activeLink: string

    constructor ()
      ensures !isMenuOpen && activeLink == "home"
    {
      isMenuOpen, activeLink := false, "home";
    }

    /** `handleScroll`: the first section, in page order, that exists and
        is crossed by the spy line becomes active; when none is, the active
        link stays as it was. */
    method HandleScroll(rects: map<string, Rect>)
      modifies this`activeLink
      ensures FirstQualifying(Sections, rects).Some? ==> activeLink == FirstQualifying(Sections, rects).value
      ensures FirstQualifying(Sections, rects).None? ==> activeLink == old(activeLink)
    {
      var i := 0;
      while i < |Sections|
        invariant 0 <= i <= |Sections|
        invariant FirstQualifying(Sections, rects) == FirstQualifying(Sections[i..], rects)
        invariant activeLink == old(activeLink)
      {
        var section := Sections[i];
        if section in rects {
          var rect := rects[section];
          if rect.top <= SpyLine && rect.bottom >= SpyLine {
            activeLink := section;
            break;
          }
        }
        assert Sections[i..][1..] == Sections[i + 1..];
        i := i + 1;
      }
    }

    /** `handleNavClick`: on the home page the target becomes active; on any
        other page the bar navigates to "/" (returned) and the active link
        is left alone. */
    method HandleNavClick(target: string, pathname: string) returns (navigateTo: Option<string>)
      modifies this`activeLink
      ensures pathname == "/" ==> navigateTo.None? && activeLink == target
      ensures pathname != "/" ==> navigateTo == Some("/") && activeLink == old(activeLink)
    {
      if pathname != "/" {
        return Some("/");
      }
      activeLink := target;
      return None;
    }

    method ToggleMenu()
      modifies this`isMenuOpen
      ensures isMenuOpen == !old(isMenuOpen)
    {
      isMenuOpen := !isMenuOpen;
    }

    method CloseMenu()
      modifies this`isMenuOpen
      ensures !isMenuOpen
    {
      isMenuOpen := false;
    }
  }
}
