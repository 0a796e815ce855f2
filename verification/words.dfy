/**
 Word lists as produced by splitting a page title on whitespace, and the two
 list operations the title split relies on: joining with single spaces and
 finding the first occurrence of a word (Python's `list.index`).
 */
module Words {
  import opened Wrappers

  /** The words separated by single spaces; the empty list joins to "". */
  function Join(ws: seq<string>): string
  {
    if |ws| == 0 then ""
    else if |ws| == 1 then ws[0]
    else ws[0] + " " + Join(ws[1..])
  }

  /** Joining a concatenation puts exactly one space between the two halves. */
  lemma {:induction false} JoinAppend(a: seq<string>, b: seq<string>)
    requires |a| > 0 && |b| > 0
    ensures Join(a + b) == Join(a) + " " + Join(b)
  {
    if |a| == 1 {
      assert (a + b)[1..] == b;
    } else {
      assert (a + b)[1..] == a[1..] + b;
      JoinAppend(a[1..], b);
    }
  }

  /** Cutting a word list anywhere strictly inside it and joining both parts
      with one space gives the whole list joined. */
  lemma {:induction false} JoinSplitAt(ws: seq<string>, k: nat)
    requires 0 < k < |ws|
    ensures Join(ws[..k]) + " " + Join(ws[k..]) == Join(ws)
  {
    JoinAppend(ws[..k], ws[k..]);
    assert ws[..k] + ws[k..] == ws;
  }

  /** A joined non-empty list starts with its first word. */
  lemma {:induction false} JoinStartsWithFirst(ws: seq<string>)
    requires |ws| > 0
    ensures |ws[0]| <= |Join(ws)| && Join(ws)[..|ws[0]|] == ws[0]
  {
  }

  /** Python's `s[:-1]`: the string without its last character, "" stays "". */
  function DropLast(s: string): (r: string)
    ensures |s| > 0 ==> r + [s[|s| - 1]] == s
    ensures |s| == 0 ==> r == ""
  {
    if |s| == 0 then "" else s[..|s| - 1]
  }

  /** Python's `ws.index(w)`: the first position holding `w`, or None where
      the source raises `ValueError`. */
  function IndexOf(ws: seq<string>, w: string): (r: Option<nat>)
    ensures r.None? <==> w !in ws
    ensures r.Some? ==> r.value < |ws| && ws[r.value] == w && w !in ws[..r.value]
  {
    if |ws| == 0 then None
    else if ws[0] == w then Some(0)
    else
      match IndexOf(ws[1..], w)
      case None => None
      case Some(k) =>
        Some(k + 1)
  }
}
