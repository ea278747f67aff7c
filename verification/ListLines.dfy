/** What the lines of a list file mean, character by character (src/firehol/ipset.rs, `parse`). */
module ListLines {
  import opened Bits
  import opened Wrappers
  import opened Text
  import opened Ipv4
  import opened Synthetic
  import I = Ipset

  // ----- header lines and comments -----

  /** A header line sets the value of its key; a date is converted first, and other keys say nothing. */
  lemma HeaderMeaning(lib: I.Library, key: string, pad: nat, value: string)
    requires PlainKey(key) && PlainValue(value)
    ensures
      I.ReadLine(lib, HeaderText(key, pad, value)) ==
      if key == "Category" then I.Header(I.Category, value)
      else if key == "Maintainer" then I.Header(I.Maintainer, value)
      else if key == "Maintainer URL" then I.Header(I.MaintainerUrl, value)
      else if key == "List source URL" then I.Header(I.ListSourceUrl, value)
      else if key == "Source File Date" then
        match lib.date(value)
        case Some(date) => I.Header(I.SourceFileDate, date)
        case None => I.BadHeader(I.SourceFileDate)
      else I.Silent
  {
    ReadHeaderText(lib, key, pad, value);
    TrimmedIsFixed(key);
    TrimmedIsFixed(value);
    hide TrimStart, TrimEnd, Trim;
  }

  lemma {:induction false} TrimStartFrom(s: string)
    ensures forall c <- TrimStart(s) :: c in s
  {
    if s != "" && IsSpace(s[0]) { TrimStartFrom(s[1..]); }
  }

  lemma {:induction false} TrimEndFrom(s: string)
    ensures forall c <- TrimEnd(s) :: c in s
  {
    if s != "" && IsSpace(s[|s| - 1]) { TrimEndFrom(s[..|s| - 1]); }
  }

  lemma FindMissing(s: string, c: char)
    requires c !in s
    ensures Find(s, c) == |s|
  {
    assert forall i :: 0 <= i < |s| ==> s[i] in s;
  }

  /** A comment without a colon says nothing. */
  lemma PlainComment(lib: I.Library, comment: string)
    requires ':' !in comment
    ensures I.ReadLine(lib, "#" + comment) == I.Silent
  {
    assert ("#" + comment)[1..] == comment;
    TrimStartFrom(comment);
    TrimEndFrom(TrimStart(comment));
    FindMissing(Trim(comment), ':');
  }

  // ----- entry lines -----

  /** Spaces and tabs. */
  predicate Blank(s: string) {
    forall c <- s :: c == ' ' || c == '\t'
  }

  lemma {:induction false} TrimStartBlank(left: string, s: string)
    requires Blank(left) && (s == "" || !IsSpace(s[0]))
    ensures TrimStart(left + s) == s
  {
    if left == "" {
      assert left + s == s;
    } else {
      assert left[0] in left && forall c <- left[1..] :: c in left;
      assert (left + s)[1..] == left[1..] + s;
      TrimStartBlank(left[1..], s);
    }
  }

  lemma {:induction false} TrimEndBlank(s: string, right: string)
    requires Blank(right) && (s == "" || !IsSpace(s[|s| - 1]))
    ensures TrimEnd(s + right) == s
  {
    if right == "" {
      assert s + right == s;
    } else {
      var n := |right| - 1;
      assert right[n] in right && forall c <- right[..n] :: c in right;
      assert (s + right)[..|s| + n] == s + right[..n];
      TrimEndBlank(s, right[..n]);
    }
  }

  /** An empty line, or one of blanks only, says nothing. */
  lemma BlankLine(lib: I.Library, line: string)
    requires Blank(line)
    ensures I.ReadLine(lib, line) == I.Silent
  {
    TrimStartBlank(line, "");
    assert line + "" == line;
    assert line != "" ==> line[0] in line;
  }

  /**
   * An entry with blanks around it is read as the entry: `a.b.c.d/n` as that network, `a.b.c.d` as a network
   * of one address, and anything else is malformed. Only a `#` in the first column starts a comment.
   */
  lemma EntryMeaning(lib: I.Library, left: string, entry: string, right: string)
    requires Blank(left) && Blank(right) && Trimmed(entry) && entry != ""
    requires left != "" || entry[0] != '#'
    ensures
      I.ReadLine(lib, left + entry + right) ==
      if '/' in entry then
        match lib.cidr(entry) case Some(net) => I.Entry(net) case None => I.BadEntry(entry)
      else
        match lib.address(entry) case Some(a) => I.Entry(Network(a, 32)) case None => I.BadEntry(entry)
  {
    var line := left + entry + right;
    assert line == left + (entry + right);
    TrimStartBlank(left, entry + right);
    TrimEndBlank(entry, right);
    assert left != "" ==> left[0] in left;
    assert line[0] != '#';
  }

  // ----- lines of a text -----

  /** Lines may end in a line feed, or in a carriage return and a line feed. */
  lemma LineEndings(line: string, rest: string)
    requires '\n' !in line
    ensures line == "" || line[|line| - 1] != '\r' ==> Lines(line + "\n" + rest) == [line] + Lines(rest)
    ensures Lines(line + "\r\n" + rest) == [line] + Lines(rest)
  {
    if line == "" || line[|line| - 1] != '\r' {
      FirstLine(line, rest);
    }
    var ended := line + "\r";
    assert '\n' !in ended;
    assert line + "\r\n" + rest == ended + ['\n'] + rest;
    FindAt(ended, '\n', rest);
    assert ended[..|ended| - 1] == line;
  }

  lemma UnendedLine(last: string)
    requires Kept(last) && last != ""
    ensures Lines(last) == [last]
  {
    FindMissing(last, '\n');
    assert last[..|last|] == last;
  }

  /** The last line is read with and without a line feed at its end, and an empty text has no line. */
  lemma LastLine(lines: seq<string>, last: string)
    requires (forall line <- lines :: Kept(line)) && Kept(last)
    ensures Lines(JoinLines(lines)) == lines
    ensures last != "" ==> Lines(JoinLines(lines) + last) == lines + [last]
    ensures Lines(JoinLines(lines) + last + "\n") == lines + [last]
  {
    hide Kept;
    NoLine();
    LinesOfJoined(lines, "");
    assert JoinLines(lines) + "" == JoinLines(lines);
    if last != "" {
      UnendedLine(last);
      LinesOfJoined(lines, last);
    }
    EndedLine(last);
    LinesOfJoined(lines, last + "\n");
    assert JoinLines(lines) + (last + "\n") == JoinLines(lines) + last + "\n";
    hide Lines, JoinLines;
  }

  lemma NoLine()
    ensures Lines("") == []
  {}

  lemma EndedLine(line: string)
    requires Kept(line)
    ensures Lines(line + "\n") == [line]
  {
    FirstLine(line, "");
    assert line + "\n" + "" == line + "\n";
  }

  /** A text whose first and last characters are printable ASCII other than the space keeps all of itself. */
  lemma PrintableEnds(s: string)
    requires s != "" && '!' <= s[0] <= '~' && '!' <= s[|s| - 1] <= '~'
    ensures Trim(s) == s
  {}

  // ----- the value in force -----

  /** The last header line of a key decides; without one the value is empty. */
  lemma {:induction false} LastHeaderDecides(lines: seq<I.Line>, from: nat, n: nat, key: I.HeaderKey)
    requires from <= n <= |lines|
    requires forall h :: from <= h < n && lines[h].Header? ==> lines[h].key != key
    ensures from == 0 ==> I.InForce(lines, n, key) == ""
    ensures
      from > 0 && lines[from - 1].Header? && lines[from - 1].key == key ==>
        I.InForce(lines, n, key) == lines[from - 1].value
  {
    if from < n { LastHeaderDecides(lines, from, n - 1, key); }
  }

  // ----- where sections begin -----

  /** No header line from `from` up to `n` changes the value in force. */
  predicate NothingChanges(lines: seq<I.Line>, from: nat, n: nat)
    requires n <= |lines|
  {
    forall h :: from <= h < n && lines[h].Header? ==> lines[h].value == I.InForce(lines, h, lines[h].key)
  }

  lemma {:induction false} ChangesCount(lines: seq<I.Line>, from: nat, n: nat)
    requires from <= n <= |lines|
    ensures I.Changes(lines, from) <= I.Changes(lines, n)
    ensures I.Changes(lines, n) == I.Changes(lines, from) <==> NothingChanges(lines, from, n)
  {
    hide I.InForce;
    if from < n { ChangesCount(lines, from, n - 1); }
  }

  lemma {:induction false} NoEntries(lines: seq<I.Line>, from: nat, n: nat)
    requires from <= n <= |lines| && forall j :: from <= j < n ==> !lines[j].Entry?
    ensures I.Facts(lines, n) == I.Facts(lines, from) && I.Epochs(lines, n) == I.Epochs(lines, from)
  {
    if from < n { NoEntries(lines, from, n - 1); }
  }

  /**
   * The entry at line `n` joins the section of the entry before it, at line `i`, if and only if no header
   * between them changes a value; otherwise it opens a new section.
   */
  lemma SectionBegins(lines: seq<I.Line>, i: nat, n: nat)
    requires i < n < |lines| && lines[i].Entry? && lines[n].Entry?
    requires forall j :: i < j < n ==> !lines[j].Entry?
    ensures
      |I.SectionsOf(lines, n + 1)| == |I.SectionsOf(lines, n)| + if NothingChanges(lines, i + 1, n) then 0 else 1
  {
    I.EntryFacts(lines, i, lines[i].network);
    NoEntries(lines, i + 1, n);
    ChangesCount(lines, i + 1, n);
    I.EntryPushes(lines, n, lines[n].network);
    hide I.Changes, I.Epochs, I.SectionsOf, NothingChanges, I.MetadataAt;
  }

  /** The first entry of a file opens its first section. */
  lemma FirstSection(lines: seq<I.Line>, n: nat)
    requires n < |lines| && lines[n].Entry? && forall j :: 0 <= j < n ==> !lines[j].Entry?
    ensures I.SectionsOf(lines, n) == [] && |I.SectionsOf(lines, n + 1)| == 1
  {
    NoEntries(lines, 0, n);
    I.EntryPushes(lines, n, lines[n].network);
    hide I.MetadataAt, I.Changes;
  }
}
