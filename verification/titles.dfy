/**
 The name/category split of a national site's page title (proj2_nps.py,
 `get_site_instance`, lines 127-141). The title has already been split into
 whitespace-free words; the first word equal to "National" marks where the
 category begins.
 */
module Titles {
  import opened Wrappers
  import opened Words

  /** The word that starts a site's category ("National Park", ...). */
  const National := "National"

  datatype TitleParts = TitleParts(name: string, category: string)

  /** The loop `for w in ws: acc = acc + w + ' '` (lines 132-133 and 135-136):
      every word followed by one space, appended to `acc`. */
  function AppendEach(ws: seq<string>, acc: string): (r: string)
    ensures |ws| == 0 ==> r == acc
    ensures |ws| > 0 ==> r == acc + Join(ws) + " "
  {
    if |ws| == 0 then acc else AppendEach(ws[1..], acc + ws[0] + " ")
  }

  /** The loop `for w in ws: name = w + ' '` (lines 139-140): each word
      replaces the previous one, so only the last survives. */
  function OverwriteEach(ws: seq<string>, name: string): (r: string)
    ensures |ws| == 0 ==> r == name
    ensures |ws| > 0 ==> r == ws[|ws| - 1] + " "
  {
    if |ws| == 0 then name else OverwriteEach(ws[1..], ws[0] + " ")
  }

  /** Accumulating "word " for each word and then dropping the final
      character joins the words with single spaces. */
  lemma {:induction false} AppendThenDropIsJoin(ws: seq<string>)
    ensures DropLast(AppendEach(ws, "")) == Join(ws)
  {
    if |ws| > 0 {
      var s := AppendEach(ws, "");
      assert s == Join(ws) + " ";
      assert s[..|s| - 1] == Join(ws);
    }
  }

  /** The first occurrence of a word in a list is unique. */
  lemma {:induction false} FirstOccurrenceUnique(ws: seq<string>, w: string, i: nat, j: nat)
    requires i < |ws| && ws[i] == w && w !in ws[..i]
    requires j < |ws| && ws[j] == w && w !in ws[..j]
    ensures i == j
  {
  }

  /**
   The split as the source performs it. With "National" present, the words
   before its first occurrence form the name and the words from it onward the
   category. Without it the `except` branch runs, whose loop overwrites the
   name: the name is the LAST word alone (or "" for no words) and the
   category stays "".
   */
  function SplitTitle(words: seq<string>): (r: TitleParts)
    ensures forall k :: 0 <= k < |words| && words[k] == National && National !in words[..k] ==>
              r.name == Join(words[..k]) && r.category == Join(words[k..])
    ensures National !in words ==>
              r.category == "" && r.name == (if |words| == 0 then "" else words[|words| - 1])
  {
    match IndexOf(words, National)
    case Some(k) =>
      AppendThenDropIsJoin(words[..k]);
      AppendThenDropIsJoin(words[k..]);
      assert forall j :: 0 <= j < |words| && words[j] == National && National !in words[..j] ==> j == k by {
        forall j | 0 <= j < |words| && words[j] == National && National !in words[..j] {
          FirstOccurrenceUnique(words, National, j, k);
        }
      }
      TitleParts(DropLast(AppendEach(words[..k], "")), DropLast(AppendEach(words[k..], "")))
    case None =>
      TitleParts(DropLast(OverwriteEach(words, "")), "")
  }

  /** Whenever the title holds "National", the category begins with it. */
  lemma {:induction false} CategoryBeginsWithNational(words: seq<string>)
    requires National in words
    ensures |National| <= |SplitTitle(words).category|
    ensures SplitTitle(words).category[..|National|] == National
  {
    var k := IndexOf(words, National).value;
    JoinStartsWithFirst(words[k..]);
  }

  /** When "National" is not the first word, name and category rejoined by
      one space give back the whole title. */
  lemma {:induction false} NameAndCategoryRejoin(words: seq<string>)
    requires National in words && words[0] != National
    ensures SplitTitle(words).name + " " + SplitTitle(words).category == Join(words)
  {
    var k := IndexOf(words, National).value;
    var r := SplitTitle(words);
    assert r.name == Join(words[..k]) && r.category == Join(words[k..]);
    JoinSplitAt(words, k);
  }

  /** When the title starts with "National", the name is empty and the
      category is the whole title. */
  lemma {:induction false} LeadingNationalLeavesNameEmpty(words: seq<string>)
    requires |words| > 0 && words[0] == National
    ensures SplitTitle(words).name == ""
    ensures SplitTitle(words).category == Join(words)
  {
    assert words[..0] == [] && words[0..] == words;
  }

  /**
   The split the source evidently intends: the `except` branch appends each
   word as the `try` branch does, so a title without "National" becomes the
   name in full.
   */
  function SplitTitleIntended(words: seq<string>): (r: TitleParts)
    ensures National in words ==> r == SplitTitle(words)
    ensures National !in words ==> r.name == Join(words) && r.category == ""
  {
    match IndexOf(words, National)
    case Some(_) => SplitTitle(words)
    case None =>
      AppendThenDropIsJoin(words);
      TitleParts(DropLast(AppendEach(words, "")), "")
  }

  /** A typical park title: "Isle Royale National Park". */
  lemma IsleRoyaleExample()
    ensures SplitTitle(["Isle", "Royale", "National", "Park"]) == TitleParts("Isle Royale", "National Park")
  {
    var ws := ["Isle", "Royale", "National", "Park"];
    assert ws[2] == National && National !in ws[..2];
    assert ws[..2] == ["Isle", "Royale"] && ws[2..] == ["National", "Park"];
    assert ["Isle", "Royale"][1..] == ["Royale"] && ["National", "Park"][1..] == ["Park"];
    assert Join(["Isle", "Royale"]) == "Isle" + " " + "Royale" == "Isle Royale";
    assert Join(["National", "Park"]) == "National" + " " + "Park" == "National Park";
  }

  /** A title without "National" loses every word but the last as written,
      and keeps them all as intended. */
  lemma OverwriteKeepsOnlyLastWord()
    ensures SplitTitle(["Blue", "Ridge", "Parkway"]) == TitleParts("Parkway", "")
    ensures SplitTitleIntended(["Blue", "Ridge", "Parkway"]) == TitleParts("Blue Ridge Parkway", "")
  {
    var ws := ["Blue", "Ridge", "Parkway"];
    assert ws[0] != National && ws[1] != National && ws[2] != National;
    assert National !in ws;
    assert ws[1..] == ["Ridge", "Parkway"] && ws[1..][1..] == ["Parkway"];
    assert Join(ws) == "Blue" + " " + ("Ridge" + " " + "Parkway") == "Blue Ridge Parkway";
  }
}
