/** `imp_chal`: how one challenge descriptor becomes one row of the
    `challenges` table (ctforge/scripts/ctforge.py:153-173). */
module Challenges {
  import opened PosixPath

  /** The parsed `info.json` descriptor. */
  datatype ChallengeInfo = ChallengeInfo(
    title: string,
    description: string,
    flag: string,
    points: int,
    tags: seq<string>,
    publicFiles: seq<string>)

  /** The values bound to the INSERT, in its column order. */
  datatype ChallengeRow = ChallengeRow(
    name: string,
    description: string,
    flag: string,
    points: int,
    tags: string,
    active: bool,
    hidden: bool,
    writeup: bool)

  const PublicFilesHeader: string := "<br><br><p><b>Public Files:</b></p><ul>"
  const PublicFilesFooter: string := "</ul>"

  /** A hyperlink; neither argument is HTML-escaped. */
  function Anchor(href: string, text: string): string {
    "<a href=\"" + href + "\">" + text + "</a>"
  }

  /** One list item, linking the file name to its place under `folder`. */
  function FileLink(folder: string, f: string): string {
    "<li>" + Anchor(Join(folder, f), f) + "</li>"
  }

  /** The strings of `parts`, one after the other. */
  function Concat(parts: seq<string>): string {
    if parts == [] then "" else parts[0] + Concat(parts[1..])
  }

  /** One list item per file, in list order. */
  function FileLinkItems(folder: string, files: seq<string>): (items: seq<string>)
    ensures |items| == |files|
    ensures forall k :: 0 <= k < |files| ==> items[k] == FileLink(folder, files[k])
  {
    seq(|files|, k requires 0 <= k < |files| => FileLink(folder, files[k]))
  }

  /** The list items of `files`, as text. */
  function FileLinks(folder: string, files: seq<string>): string {
    Concat(FileLinkItems(folder, files))
  }

  /** The description stored for a challenge: unchanged when there are no
      public files, otherwise followed by a header, the links and a footer. */
  function RenderedDescription(description: string, files: seq<string>, folder: string): string {
    if files == [] then description
    else description + PublicFilesHeader + FileLinks(folder, files) + PublicFilesFooter
  }

  /** Python's `'/'.join(tags)`. */
  function JoinTags(tags: seq<string>): string {
    if tags == [] then ""
    else if |tags| == 1 then tags[0]
    else tags[0] + "/" + JoinTags(tags[1..])
  }

  /** The row `imp_chal` inserts. Whatever the descriptor says, an imported
      challenge is inactive, hidden and without a submitted writeup; the
      title, flag and points are copied unchanged. */
  function ChallengeRowOf(info: ChallengeInfo, folder: string): (row: ChallengeRow)
    ensures !row.active && row.hidden && !row.writeup
    ensures row.name == info.title && row.flag == info.flag && row.points == info.points
    ensures row.tags == JoinTags(info.tags)
    ensures row.description == RenderedDescription(info.description, info.publicFiles, folder)
  {
    ChallengeRow(info.title, RenderedDescription(info.description, info.publicFiles, folder),
                 info.flag, info.points, JoinTags(info.tags), false, true, false)
  }

  /** No challenge row is active, visible or marked as having a writeup. */
  predicate AllInert(rows: seq<ChallengeRow>) {
    forall k :: 0 <= k < |rows| ==> !rows[k].active && rows[k].hidden && !rows[k].writeup
  }

  /** The description-building loop of `imp_chal`: `+=` onto the original
      description, one link per public file. */
  method BuildDescription(description: string, files: seq<string>, folder: string)
    returns (d: string)
    ensures d == RenderedDescription(description, files, folder)
  {
    d := description;
    if files != [] {
      d := d + PublicFilesHeader;
      ghost var pre := d;
      for i := 0 to |files|
        invariant d == pre + FileLinks(folder, files[..i])
      {
        LinksLoopStep(pre, folder, files, i);
        d := d + FileLink(folder, files[i]);
      }
      assert files[..|files|] == files;
      d := d + PublicFilesFooter;
    }
  }

  // ---------------------------------------------------------------------------
  // The link list

  /** Appending a part appends exactly its text. */
  lemma {:induction false} ConcatSnoc(parts: seq<string>, p: string)
    ensures Concat(parts + [p]) == Concat(parts) + p
  {
    if parts == [] {
      assert [p][1..] == [];
    } else {
      assert (parts + [p])[1..] == parts[1..] + [p];
      ConcatSnoc(parts[1..], p);
    }
  }

  /** The text of a list of parts is that of any prefix followed by that of
      the remaining suffix. */
  lemma {:induction false} ConcatSplit(parts: seq<string>, i: nat)
    requires i <= |parts|
    ensures Concat(parts) == Concat(parts[..i]) + Concat(parts[i..])
  {
    if i == 0 {
      assert parts[..0] == [] && parts[0..] == parts;
    } else {
      ConcatSplit(parts[1..], i - 1);
      assert parts[1..][..i - 1] == parts[..i][1..];
      assert parts[1..][i - 1..] == parts[i..];
    }
  }

  /** The items of a prefix of the files are a prefix of the items. */
  lemma FileLinkItemsPrefix(folder: string, files: seq<string>, i: nat)
    requires i <= |files|
    ensures FileLinkItems(folder, files[..i]) == FileLinkItems(folder, files)[..i]
  {
  }

  /** Appending a file appends exactly its link. */
  lemma FileLinksSnoc(folder: string, files: seq<string>, f: string)
    ensures FileLinks(folder, files + [f]) == FileLinks(folder, files) + FileLink(folder, f)
  {
    assert FileLinkItems(folder, files + [f]) == FileLinkItems(folder, files) + [FileLink(folder, f)];
    ConcatSnoc(FileLinkItems(folder, files), FileLink(folder, f));
  }

  /** One turn of the description-building loop: the text so far, extended
      by the link of file `i`, is the text for the files up to `i`. */
  lemma LinksLoopStep(pre: string, folder: string, files: seq<string>, i: nat)
    requires i < |files|
    ensures pre + FileLinks(folder, files[..i + 1]) == pre + FileLinks(folder, files[..i]) + FileLink(folder, files[i])
  {
    assert files[..i + 1] == files[..i] + [files[i]];
    FileLinksSnoc(folder, files[..i], files[i]);
  }

  /** The links of a list are the links of any prefix followed by those of
      the remaining suffix. */
  lemma FileLinksSplit(folder: string, files: seq<string>, i: nat)
    requires i <= |files|
    ensures FileLinks(folder, files) == FileLinks(folder, files[..i]) + FileLinks(folder, files[i..])
  {
    var items := FileLinkItems(folder, files);
    ConcatSplit(items, i);
    assert FileLinkItems(folder, files[..i]) == items[..i];
    assert FileLinkItems(folder, files[i..]) == items[i..];
  }

  /** Offset, inside the stored description, at which the link of file `i` starts. */
  function LinkOffset(description: string, files: seq<string>, folder: string, i: nat): nat
    requires i <= |files|
  {
    |description| + |PublicFilesHeader| + |FileLinks(folder, files[..i])|
  }

  /** Inside the text of a list of parts, part `i` starts right after the
      parts before it. */
  lemma ConcatPartAt(parts: seq<string>, i: nat)
    requires i < |parts|
    ensures var off := |Concat(parts[..i])|;
      && |Concat(parts[..i + 1])| == off + |parts[i]|
      && off + |parts[i]| <= |Concat(parts)|
      && Concat(parts)[off..off + |parts[i]|] == parts[i]
  {
    ConcatSnoc(parts[..i], parts[i]);
    assert parts[..i + 1] == parts[..i] + [parts[i]];
    ConcatSplit(parts, i + 1);
    var before := Concat(parts[..i]);
    var whole := Concat(parts);
    assert whole == (before + parts[i]) + Concat(parts[i + 1..]);
    assert whole[|before|..|before| + |parts[i]|] == (before + parts[i])[|before|..];
  }

  /** A slice of the middle part of `a + m + b`, read through the whole. */
  lemma SliceOfMiddle(a: string, m: string, b: string, lo: nat, hi: nat)
    requires lo <= hi <= |m|
    ensures |a| + hi <= |a + m + b|
    ensures (a + m + b)[|a| + lo..|a| + hi] == m[lo..hi]
  {
    var w := a + m + b;
    assert forall k :: |a| + lo <= k < |a| + hi ==> w[k] == m[k - |a|];
  }

  /** The link of file `i` is stored at its offset, and the next link starts
      right after it. */
  predicate LinkStoredAt(description: string, files: seq<string>, folder: string, i: nat)
    requires i < |files|
  {
    var r := RenderedDescription(description, files, folder);
    var off := LinkOffset(description, files, folder, i);
    var link := FileLinkItems(folder, files)[i];
    && LinkOffset(description, files, folder, i + 1) == off + |link|
    && off + |link| <= |r|
    && r[off..off + |link|] == link
  }

  /** The offset of a link, counted over the list items. */
  lemma LinkOffsetOverItems(description: string, files: seq<string>, folder: string, i: nat)
    requires i <= |files|
    ensures LinkOffset(description, files, folder, i)
         == |description + PublicFilesHeader| + |Concat(FileLinkItems(folder, files)[..i])|
  {
    FileLinkItemsPrefix(folder, files, i);
  }

  /** One file's link, at its place in the stored description. */
  lemma LinkStored(description: string, files: seq<string>, folder: string, i: nat)
    requires i < |files|
    ensures LinkStoredAt(description, files, folder, i)
  {
    var items := FileLinkItems(folder, files);
    var pre := description + PublicFilesHeader;
    var r := RenderedDescription(description, files, folder);
    var off := LinkOffset(description, files, folder, i);
    var link := items[i];
    assert off == |pre| + |Concat(items[..i])| by {
      LinkOffsetOverItems(description, files, folder, i);
    }
    assert LinkOffset(description, files, folder, i + 1) == |pre| + |Concat(items[..i + 1])| by {
      LinkOffsetOverItems(description, files, folder, i + 1);
    }
    assert |pre| + |Concat(items[..i + 1])| == off + |link| && off + |link| <= |r|
        && r[off..off + |link|] == link by {
      assert r == pre + Concat(items) + PublicFilesFooter;
      PartStored(r, pre, items, PublicFilesFooter, i, off);
    }
  }

  /** Part `i` of a framed run of parts sits right after the frame's start
      and the parts before it. */
  lemma PartStored(whole: string, pre: string, parts: seq<string>, post: string, i: nat, lo: nat)
    requires whole == pre + Concat(parts) + post
    requires i < |parts| && lo == |pre| + |Concat(parts[..i])|
    ensures |pre| + |Concat(parts[..i + 1])| == lo + |parts[i]|
    ensures lo + |parts[i]| <= |whole|
    ensures whole[lo..lo + |parts[i]|] == parts[i]
  {
    var k := |Concat(parts[..i])|;
    ConcatPartAt(parts, i);
    SliceOfMiddle(pre, Concat(parts), post, k, k + |parts[i]|);
  }

  /** The stored description starts with the original description and the
      header, its links start right after them, and the footer follows the
      last link and ends the text. */
  predicate FramedByHeaderAndFooter(description: string, files: seq<string>, folder: string) {
    var r := RenderedDescription(description, files, folder);
    var pre := description + PublicFilesHeader;
    && |pre| + |PublicFilesFooter| <= |r|
    && r[..|pre|] == pre
    && LinkOffset(description, files, folder, 0) == |pre|
    && LinkOffset(description, files, folder, |files|) + |PublicFilesFooter| == |r|
    && r[|r| - |PublicFilesFooter|..] == PublicFilesFooter
  }

  /** The frame around the links, when there are files. */
  lemma Framed(description: string, files: seq<string>, folder: string)
    requires files != []
    ensures FramedByHeaderAndFooter(description, files, folder)
  {
    var pre := description + PublicFilesHeader;
    var links := FileLinks(folder, files);
    var r := RenderedDescription(description, files, folder);
    assert r == pre + links + PublicFilesFooter;
    assert files[..0] == [] && files[..|files|] == files;
    assert FileLinks(folder, []) == "";
  }

  /** Layout of the stored description. With no public files it is the input
      description exactly. Otherwise it starts with the description and the
      header, then holds exactly one link per file (the i-th item being the
      link of the i-th file), in list order and back to back, and ends with
      the footer right after the last link. */
  lemma RenderedDescriptionLayout(description: string, files: seq<string>, folder: string)
    ensures files == [] ==> RenderedDescription(description, files, folder) == description
    ensures files != [] ==> FramedByHeaderAndFooter(description, files, folder)
    ensures forall i :: 0 <= i < |files| ==> LinkStoredAt(description, files, folder, i)
    ensures forall i :: 0 <= i < |files| ==> FileLinkItems(folder, files)[i] == FileLink(folder, files[i])
  {
    if files != [] {
      Framed(description, files, folder);
    }
    forall i | 0 <= i < |files|
      ensures LinkStoredAt(description, files, folder, i)
    {
      LinkStored(description, files, folder, i);
    }
  }

  /** The example of an `info.json` with one public file and the default
      public-files URI: the description ends in a one-item list whose link
      points under the public folder. */
  lemma WriteupExample(description: string)
    ensures RenderedDescription(description, ["writeup.pdf"], "/data/public_files/")
         == description + PublicFilesHeader
            + "<li>" + Anchor("/data/public_files/writeup.pdf", "writeup.pdf") + "</li>"
            + PublicFilesFooter
  {
    assert Join("/data/public_files/", "writeup.pdf") == "/data/public_files/writeup.pdf";
    assert ["writeup.pdf"][1..] == [];
  }

  // ---------------------------------------------------------------------------
  // The tag string

  /** Index of the first '/' in `s`. */
  function FirstSlash(s: string): (i: nat)
    requires '/' in s
    ensures i < |s| && s[i] == '/' && '/' !in s[..i]
  {
    if s[0] == '/' then 0
    else
      assert s == [s[0]] + s[1..];
      var j := FirstSlash(s[1..]);
      assert s[..j + 1] == [s[0]] + s[1..][..j];
      j + 1
  }

  /** Python's `s.split('/')`: the reference the tag string is read back with. */
  function SplitOnSlash(s: string): (parts: seq<string>)
    ensures |parts| >= 1
    decreases |s|
  {
    if '/' !in s then [s]
    else
      var i := FirstSlash(s);
      [s[..i]] + SplitOnSlash(s[i + 1..])
  }

  /** The first separator of `a + "/" + b` is the one between them when `a` has none. */
  lemma FirstSlashOfJoin(a: string, b: string)
    requires '/' !in a
    ensures '/' in a + "/" + b && FirstSlash(a + "/" + b) == |a|
  {
    var s := a + "/" + b;
    assert s[|a|] == '/';
  }

  /** Joining non-empty lists of tags with '/' loses nothing when no tag holds
      a '/': splitting the stored string gives the tags back, in order. (An
      empty list and the list [""] are both stored as "".) */
  lemma {:induction false} SplitJoinTags(tags: seq<string>)
    requires tags != []
    requires forall k :: 0 <= k < |tags| ==> '/' !in tags[k]
    ensures SplitOnSlash(JoinTags(tags)) == tags
  {
    if |tags| > 1 {
      var rest := JoinTags(tags[1..]);
      SplitAtFirstSlash(tags[0], rest);
      SplitJoinTags(tags[1..]);
      assert tags == [tags[0]] + tags[1..];
    }
  }

  /** Splitting `a + "/" + b` cuts off `a` first when `a` has no separator. */
  lemma SplitAtFirstSlash(a: string, b: string)
    requires '/' !in a
    ensures SplitOnSlash(a + "/" + b) == [a] + SplitOnSlash(b)
  {
    var s := a + "/" + b;
    FirstSlashOfJoin(a, b);
    assert s[..|a|] == a;
    assert s[|a| + 1..] == b;
  }

  /** The empty tag list is stored as "", and a single tag as itself, with no separator. */
  lemma JoinTagsSmall(tags: seq<string>)
    ensures tags == [] ==> JoinTags(tags) == ""
    ensures |tags| == 1 ==> JoinTags(tags) == tags[0]
  {
  }

  /** How many separators a string holds. */
  function SlashCount(s: string): nat {
    multiset(s)['/']
  }

  /** A stored tag string holds exactly one separator fewer than there are
      tags, when no tag holds a separator itself, and so splits back into as
      many pieces as there were tags. */
  lemma {:induction false} JoinTagsSeparators(tags: seq<string>)
    requires tags != []
    requires forall k :: 0 <= k < |tags| ==> '/' !in tags[k]
    ensures SlashCount(JoinTags(tags)) == |tags| - 1
    ensures |SplitOnSlash(JoinTags(tags))| == |tags|
  {
    if |tags| == 1 {
      assert '/' !in multiset(tags[0]);
    } else {
      JoinTagsSeparators(tags[1..]);
      var rest := JoinTags(tags[1..]);
      assert multiset(tags[0] + "/" + rest) == multiset(tags[0]) + multiset("/") + multiset(rest);
      assert '/' !in multiset(tags[0]);
    }
    SplitJoinTags(tags);
  }
}
