/** From list files to the verdict: the index agrees with a reading of every line of every file. */
module Verdict {
  import opened Bits
  import opened Wrappers
  import opened Ipv4
  import opened Builder
  import opened Spoa
  import I = Ipset

  /** A list file; no content when it, or its name, cannot be read as UTF-8. */
  datatype File = File(name: string, content: Option<string>)

  /** A list file read line by line; no lines when its content could not be read. */
  datatype Reading = Reading(name: string, lines: Option<seq<I.Line>>)
  {
    /** The file parses: it could be read and no line is malformed. */
    predicate Good() {
      lines.Some? && forall i :: 0 <= i < |lines.value| ==> !lines.value[i].IsBad()
    }

    function Parsed(): I.Ipset
      requires Good()
    {
      I.Ipset(name, I.SectionsOf(lines.value, |lines.value|))
    }
  }

  function ReadFile(lib: I.Library, file: File): Reading {
    match file.content
    case Some(content) => Reading(file.name, Some(I.ReadLines(lib, content)))
    case None => Reading(file.name, None)
  }

  function ReadFiles(lib: I.Library, files: seq<File>): (readings: seq<Reading>)
    ensures |readings| == |files|
  {
    seq(|files|, i requires 0 <= i < |files| => ReadFile(lib, files[i]))
  }

  /** The parsed files, in order; unreadable and malformed ones are skipped. */
  function ParsedFiles(readings: seq<Reading>): seq<I.Ipset> {
    if readings == [] then []
    else
      var n := |readings| - 1;
      ParsedFiles(readings[..n]) + (if readings[n].Good() then [readings[n].Parsed()] else [])
  }

  /** Files are parsed one by one; what is kept of each stands in its place. */
  lemma {:induction false} ParsedFilesAppend(a: seq<Reading>, b: seq<Reading>)
    ensures ParsedFiles(a + b) == ParsedFiles(a) + ParsedFiles(b)
  {
    if b == [] {
      assert a + b == a;
    } else {
      var n := |b| - 1;
      ParsedFilesAppend(a, b[..n]);
      assert (a + b)[..|a| + n] == a + b[..n] && (a + b)[|a| + n] == b[n];
      var last := if b[n].Good() then [b[n].Parsed()] else [];
      assert ParsedFiles(a + b) == ParsedFiles(a + b[..n]) + last && ParsedFiles(b) == ParsedFiles(b[..n]) + last;
      hide ParsedFiles, Reading.Good, Reading.Parsed;
      Regroup(ParsedFiles(a), ParsedFiles(b[..n]), last);
    }
  }

  lemma ParsedOne(reading: Reading)
    ensures ParsedFiles([reading]) == if reading.Good() then [reading.Parsed()] else []
  {
    assert [reading][..0] == [];
  }

  /** `parse_files` */
  method ParseFiles(lib: I.Library, files: seq<File>) returns (ipsets: seq<I.Ipset>)
    ensures ipsets == ParsedFiles(ReadFiles(lib, files))
  {
    ipsets := [];
    ghost var readings := ReadFiles(lib, files);
    for i := 0 to |files|
      invariant ipsets == ParsedFiles(readings[..i])
    {
      assert readings[..i + 1][..i] == readings[..i];
      ghost var reading := readings[i];
      if files[i].content.Some? {
        var r := I.Parse(lib, files[i].name, files[i].content.value);
        GoodIffParsed(reading, r);
        match r {
          case Ok(ipset) => ipsets := ipsets + [ipset];
          case Err(_) =>
        }
      }
    }
    assert readings[..|files|] == readings;
  }

  lemma GoodIffParsed(reading: Reading, r: Result<I.Ipset, I.ParseError>)
    requires reading.lines.Some? && I.Parsed(reading.name, reading.lines.value, r)
    ensures reading.Good() <==> r.Ok?
    ensures r.Ok? ==> r.value == reading.Parsed()
  {}

  // ----- the reference -----

  /** Line `i` of a good file lists `address` under a dropped category, or in a dropped file. */
  ghost predicate Condemns(reading: Reading, i: nat, address: u32, categories: set<string>, fileNames: set<string>) {
    && reading.Good()
    && var lines := reading.lines.value;
    && i < |lines|
    && lines[i].Entry?
    && Contains(lines[i].network, address)
    && (I.InForce(lines, i, I.Category) in categories || reading.name in fileNames)
  }

  /** The verdict read off the list files directly. */
  ghost predicate Listed(readings: seq<Reading>, address: u32, categories: set<string>, fileNames: set<string>) {
    exists reading, i: nat :: reading in readings && Condemns(reading, i, address, categories, fileNames)
  }

  // ----- from listings to lines -----

  lemma {:induction false} FileListingsNamed(name: string, sections: seq<I.Section>)
    ensures FileListings(name, sections) == Named(name, I.Flatten(sections))
  {
    if sections != [] {
      FileListingsNamed(name, sections[..|sections| - 1]);
    }
  }

  /** `l` is an entry line of a good file. */
  ghost predicate LineOf(reading: Reading, l: Listing) {
    && reading.Good()
    && l.fileName == reading.name
    && l.fact in I.Facts(reading.lines.value, |reading.lines.value|)
  }

  lemma InFileListings(reading: Reading, l: Listing)
    requires reading.Good()
    ensures l in FileListings(reading.name, reading.Parsed().sections) <==> LineOf(reading, l)
  {
    var lines := reading.lines.value;
    var facts := I.Facts(lines, |lines|);
    FileListingsNamed(reading.name, I.SectionsOf(lines, |lines|));
    I.SectionsRefineLines(lines);
    InNamed(reading.name, facts, l);
  }

  lemma InNamed(name: string, facts: seq<I.Fact>, l: Listing)
    ensures l in Named(name, facts) <==> l.fileName == name && l.fact in facts
  {
    if l.fileName == name && l.fact in facts {
      var i :| 0 <= i < |facts| && facts[i] == l.fact;
      assert Named(name, facts)[i] == l;
    }
  }

  /** The listings of the parsed files are the entry lines of the good files. */
  lemma {:induction false} InListings(readings: seq<Reading>, l: Listing)
    ensures l in Listings(ParsedFiles(readings)) <==> exists reading :: reading in readings && LineOf(reading, l)
  {
    if readings != [] {
      var n := |readings| - 1;
      var last := readings[n];
      InListings(readings[..n], l);
      assert forall reading :: reading in readings <==> reading in readings[..n] || reading == last;
      if last.Good() {
        ListingsOfOneMore(ParsedFiles(readings[..n]), last.Parsed());
        InFileListings(last, l);
      } else {
        assert ParsedFiles(readings) == ParsedFiles(readings[..n]);
      }
    }
  }

  lemma ListingsOfOneMore(ipsets: seq<I.Ipset>, ipset: I.Ipset)
    ensures Listings(ipsets + [ipset]) == Listings(ipsets) + FileListings(ipset.fileName, ipset.sections)
  {
    assert (ipsets + [ipset])[..|ipsets|] == ipsets;
  }

  // ----- the verdict -----

  /**
   * End to end: on a database built from the files the agent drops an IPv4 address iff some line of
   * a well-formed file lists it while a dropped category is in force there, or the file is dropped.
   */
  lemma VerdictIsListing(
    readings: seq<Reading>, tree: Tree, a: u32, categories: set<string>, fileNames: set<string>)
    requires Indexes(tree, Listings(ParsedFiles(readings)))
    ensures Decide(Some(tree), V4(a), categories, fileNames).Some? <==> Listed(readings, a, categories, fileNames)
  {
    DecideMeaning(tree, Listings(ParsedFiles(readings)), a, categories, fileNames);
    CondemnedIffListed(readings, a, categories, fileNames);
  }

  /** An address is condemned by what is inserted into the database iff a line of a good file condemns it. */
  lemma CondemnedIffListed(readings: seq<Reading>, a: u32, categories: set<string>, fileNames: set<string>)
    ensures
      Condemned(Listings(ParsedFiles(readings)), a, categories, fileNames) <==>
      Listed(readings, a, categories, fileNames)
  {
    var all := Listings(ParsedFiles(readings));
    if l :| l in all && Condemning(l, a, categories, fileNames) {
      ListingCondemns(readings, a, categories, fileNames, l);
    }
    if Listed(readings, a, categories, fileNames) {
      var reading, i: nat :| reading in readings && Condemns(reading, i, a, categories, fileNames);
      CondemnedListing(readings, a, categories, fileNames, reading, i);
    }
  }

  lemma ListingCondemns(
    readings: seq<Reading>, a: u32, categories: set<string>, fileNames: set<string>, l: Listing)
    requires l in Listings(ParsedFiles(readings)) && Condemning(l, a, categories, fileNames)
    ensures Listed(readings, a, categories, fileNames)
  {
    InListings(readings, l);
    var reading :| reading in readings && LineOf(reading, l);
    var lines := reading.lines.value;
    I.FactsAreEntryLines(lines, |lines|, l.fact);
    var i :| 0 <= i < |lines| && lines[i] == I.Entry(l.fact.network) && l.fact.metadata == I.MetadataAt(lines, i);
    assert Condemns(reading, i, a, categories, fileNames);
  }

  lemma CondemnedListing(
    readings: seq<Reading>, a: u32, categories: set<string>, fileNames: set<string>, reading: Reading, i: nat)
    requires reading in readings && Condemns(reading, i, a, categories, fileNames)
    ensures Condemned(Listings(ParsedFiles(readings)), a, categories, fileNames)
  {
    var lines := reading.lines.value;
    var l := Listing(reading.name, I.Fact(I.MetadataAt(lines, i), lines[i].network));
    I.FactsAreEntryLines(lines, |lines|, l.fact);
    assert LineOf(reading, l);
    InListings(readings, l);
    assert Condemning(l, a, categories, fileNames);
  }

  /** More files, more dropped categories or more dropped names never free an address. */
  lemma VerdictGrows(
    lib: I.Library, files: seq<File>, more: seq<File>, tree: Tree, bigger: Tree, a: u32,
    categories: set<string>, fileNames: set<string>, categories': set<string>, fileNames': set<string>)
    requires Indexes(tree, Listings(ParsedFiles(ReadFiles(lib, files))))
    requires Indexes(bigger, Listings(ParsedFiles(ReadFiles(lib, more))))
    requires forall file <- files :: file in more
    requires categories <= categories' && fileNames <= fileNames'
    ensures
      Decide(Some(tree), V4(a), categories, fileNames).Some? ==>
      Decide(Some(bigger), V4(a), categories', fileNames').Some?
  {
    var readings, readings' := ReadFiles(lib, files), ReadFiles(lib, more);
    VerdictIsListing(readings, tree, a, categories, fileNames);
    VerdictIsListing(readings', bigger, a, categories', fileNames');
    if Listed(readings, a, categories, fileNames) {
      var reading, i: nat :| reading in readings && Condemns(reading, i, a, categories, fileNames);
      ReadingsGrow(lib, files, more, reading);
      assert Condemns(reading, i, a, categories', fileNames');
    }
  }

  lemma ReadingsGrow(lib: I.Library, files: seq<File>, more: seq<File>, reading: Reading)
    requires forall file <- files :: file in more
    requires reading in ReadFiles(lib, files)
    ensures reading in ReadFiles(lib, more)
  {
    var k :| 0 <= k < |files| && ReadFiles(lib, files)[k] == reading;
    assert files[k] in files;
    var j :| 0 <= j < |more| && more[j] == files[k];
    assert ReadFiles(lib, more)[j] == reading;
  }

  /** The order of the files does not matter to the verdict. */
  lemma FileOrderIrrelevant(
    lib: I.Library, files: seq<File>, files': seq<File>, tree: Tree, tree': Tree, a: u32,
    categories: set<string>, fileNames: set<string>)
    requires multiset(files) == multiset(files')
    requires Indexes(tree, Listings(ParsedFiles(ReadFiles(lib, files))))
    requires Indexes(tree', Listings(ParsedFiles(ReadFiles(lib, files'))))
    ensures
      Decide(Some(tree), V4(a), categories, fileNames).Some? <==>
      Decide(Some(tree'), V4(a), categories, fileNames).Some?
  {
    assert forall file :: file in files <==> file in multiset(files);
    assert forall file :: file in files' <==> file in multiset(files');
    VerdictGrows(lib, files, files', tree, tree', a, categories, fileNames, categories, fileNames);
    VerdictGrows(lib, files', files, tree', tree, a, categories, fileNames, categories, fileNames);
  }

  // ----- what matters about the order of lines -----

  /** Some entry of the file, if it is good, contains the address while this category is in force. */
  ghost predicate Lists(reading: Reading, a: u32, category: string) {
    && reading.Good()
    && exists i :: 0 <= i < |reading.lines.value| && ListsAt(reading.lines.value, i, a, category)
  }

  predicate ListsAt(lines: seq<I.Line>, i: nat, a: u32, category: string)
    requires i < |lines|
  {
    lines[i].Entry? && Contains(lines[i].network, a) && I.InForce(lines, i, I.Category) == category
  }

  lemma CondemnsByList(reading: Reading, a: u32, categories: set<string>, fileNames: set<string>)
    ensures
      (exists i: nat :: Condemns(reading, i, a, categories, fileNames)) <==>
      exists c :: Lists(reading, a, c) && (c in categories || reading.name in fileNames)
  {
    if i: nat :| Condemns(reading, i, a, categories, fileNames) {
      var c := I.InForce(reading.lines.value, i, I.Category);
      assert ListsAt(reading.lines.value, i, a, c);
      assert Lists(reading, a, c);
    }
    if c :| Lists(reading, a, c) && (c in categories || reading.name in fileNames) {
      var i :| 0 <= i < |reading.lines.value| && ListsAt(reading.lines.value, i, a, c);
      assert Condemns(reading, i, a, categories, fileNames);
    }
  }

  /** Under each category the two files list the same addresses. */
  ghost predicate SameLists(r: Reading, r': Reading) {
    forall a: u32, c: string :: Lists(r, a, c) <==> Lists(r', a, c)
  }

  /** In the place of file `f` the two files lead to the same verdict. */
  ghost predicate Agree(
    readings: seq<Reading>, f: nat, r: Reading, r': Reading, a: u32, categories: set<string>, fileNames: set<string>)
    requires f < |readings|
  {
    Listed(readings[f := r], a, categories, fileNames) <==> Listed(readings[f := r'], a, categories, fileNames)
  }

  /** So they do whatever the other files, the address and the drop sets. */
  ghost predicate SameVerdicts(r: Reading, r': Reading) {
    forall readings: seq<Reading>, f: nat, a: u32, categories: set<string>, fileNames: set<string> ::
      f < |readings| ==> Agree(readings, f, r, r', a, categories, fileNames)
  }

  /** The exact condition under which two files of one name, say with their lines reordered, are alike. */
  lemma SameVerdictsIff(r: Reading, r': Reading)
    requires r.name == r'.name
    ensures SameVerdicts(r, r') <==> SameLists(r, r')
  {
    if SameLists(r, r') {
      forall readings: seq<Reading>, f: nat, a: u32, categories: set<string>, fileNames: set<string> |
        f < |readings|
        ensures Agree(readings, f, r, r', a, categories, fileNames)
      {
        ReplacedListed(readings, f, r, r', a, categories, fileNames);
        ReplacedListed(readings, f, r', r, a, categories, fileNames);
      }
    }
    if SameVerdicts(r, r') {
      forall a: u32, c: string ensures Lists(r, a, c) <==> Lists(r', a, c) {
        assert Agree([r], 0, r, r', a, {c}, {});
        assert [r][0 := r] == [r] && [r][0 := r'] == [r'];
        AloneListed(r, a, c);
        AloneListed(r', a, c);
      }
    }
  }

  lemma ReplacedListed(
    readings: seq<Reading>, f: nat, r: Reading, r': Reading, a: u32,
    categories: set<string>, fileNames: set<string>)
    requires f < |readings| && r.name == r'.name && SameLists(r, r')
    ensures
      Listed(readings[f := r], a, categories, fileNames) ==> Listed(readings[f := r'], a, categories, fileNames)
  {
    hide Condemns, Lists;
    if reading, i: nat :| reading in readings[f := r] && Condemns(reading, i, a, categories, fileNames) {
      var n :| 0 <= n < |readings| && readings[f := r][n] == reading;
      assert readings[f := r'][n] in readings[f := r'];
      if n == f {
        CondemnsByList(r, a, categories, fileNames);
        var c :| Lists(r, a, c) && (c in categories || r.name in fileNames);
        assert Lists(r', a, c);
        CondemnsByList(r', a, categories, fileNames);
        var j: nat :| Condemns(r', j, a, categories, fileNames);
      }
    }
  }

  /** A file alone, with one dropped category. */
  lemma AloneListed(r: Reading, a: u32, c: string)
    ensures Listed([r], a, {c}, {}) <==> Lists(r, a, c)
  {
    hide Condemns, Lists;
    CondemnsByList(r, a, {c}, {});
    if Lists(r, a, c) {
      var i: nat :| Condemns(r, i, a, {c}, {});
      assert r in [r];
    }
  }

  /** An entry before and after a category header: the order of lines does matter. */
  lemma HeaderOrderMatters(name: string, network: Network, a: u32, c: string)
    requires Contains(network, a) && c != ""
    ensures
      var entry, header := I.Entry(network), I.Header(I.Category, c);
      && !Listed([Reading(name, Some([entry, header]))], a, {c}, {})
      && Listed([Reading(name, Some([header, entry]))], a, {c}, {})
  {
    var entry, header := I.Entry(network), I.Header(I.Category, c);
    var before, after := Reading(name, Some([entry, header])), Reading(name, Some([header, entry]));
    AloneListed(before, a, c);
    AloneListed(after, a, c);
    assert ListsAt([header, entry], 1, a, c);
  }

  /** Files that list the same addresses under each category can be exchanged in a database. */
  lemma SameListsSameVerdict(
    readings: seq<Reading>, f: nat, other: Reading, tree: Tree, tree': Tree, a: u32,
    categories: set<string>, fileNames: set<string>)
    requires f < |readings| && readings[f].name == other.name && SameLists(readings[f], other)
    requires Indexes(tree, Listings(ParsedFiles(readings)))
    requires Indexes(tree', Listings(ParsedFiles(readings[f := other])))
    ensures
      Decide(Some(tree), V4(a), categories, fileNames).Some? <==>
      Decide(Some(tree'), V4(a), categories, fileNames).Some?
  {
    hide SameLists;
    VerdictIsListing(readings, tree, a, categories, fileNames);
    VerdictIsListing(readings[f := other], tree', a, categories, fileNames);
    SameVerdictsIff(readings[f], other);
    assert Agree(readings, f, readings[f], other, a, categories, fileNames);
    assert readings[f := readings[f]] == readings;
  }

  /**
   * `b` is `a` with the lines from `from` up to `to` in another order; none of them is a header. All
   * other lines stay.
   */
  ghost predicate Shuffled(a: Reading, b: Reading, from: nat, to: nat) {
    && a.name == b.name && a.lines.Some? && b.lines.Some?
    && var l, m := a.lines.value, b.lines.value;
    && from <= to <= |l| && |l| == |m|
    && (forall i :: from <= i < to ==> !l[i].Header? && !m[i].Header?)
    && (forall i :: 0 <= i < |l| && !(from <= i < to) ==> l[i] == m[i])
    && multiset(l[from..to]) == multiset(m[from..to])
  }

  /** The order of the lines between two headers does not matter to the verdict. */
  lemma LineOrderIrrelevant(
    readings: seq<Reading>, f: nat, other: Reading, from: nat, to: nat, tree: Tree, tree': Tree, a: u32,
    categories: set<string>, fileNames: set<string>)
    requires f < |readings| && Shuffled(readings[f], other, from, to)
    requires Indexes(tree, Listings(ParsedFiles(readings)))
    requires Indexes(tree', Listings(ParsedFiles(readings[f := other])))
    ensures
      Decide(Some(tree), V4(a), categories, fileNames).Some? <==>
      Decide(Some(tree'), V4(a), categories, fileNames).Some?
  {
    ShuffledLists(readings[f], other, from, to);
    SameListsSameVerdict(readings, f, other, tree, tree', a, categories, fileNames);
  }

  lemma ShuffledLists(r: Reading, r': Reading, from: nat, to: nat)
    requires Shuffled(r, r', from, to)
    ensures SameLists(r, r')
  {
    hide Shuffled, Lists;
    ShuffledBack(r, r', from, to);
    forall a: u32, c: string ensures Lists(r, a, c) <==> Lists(r', a, c) {
      if Lists(r, a, c) { ShuffledListsToo(r, r', from, to, a, c); }
      if Lists(r', a, c) { ShuffledListsToo(r', r, from, to, a, c); }
    }
  }

  lemma ShuffledBack(a: Reading, b: Reading, from: nat, to: nat)
    requires Shuffled(a, b, from, to)
    ensures Shuffled(b, a, from, to)
  {}

  lemma ShuffledListsToo(reading: Reading, other: Reading, from: nat, to: nat, a: u32, c: string)
    requires Shuffled(reading, other, from, to) && Lists(reading, a, c)
    ensures Lists(other, a, c)
  {
    var l, m := reading.lines.value, other.lines.value;
    var i :| 0 <= i < |l| && ListsAt(l, i, a, c);
    forall k | 0 <= k < |m| ensures !m[k].IsBad() {
      if from <= k < to {
        var _ := Elsewhere(m[from..to], l[from..to], k - from);
      }
    }
    var j := i;
    if from <= i < to {
      var k := Elsewhere(l[from..to], m[from..to], i - from);
      j := from + k;
      HeaderlessInForce(l, from, i);
      HeaderlessInForce(l, from, j);
    }
    ShuffledInForce(l, m, from, to, j);
    assert ListsAt(m, j, a, c);
  }

  /** Where an element of `a` stands in a rearrangement of `a`. */
  lemma Elsewhere<T>(a: seq<T>, b: seq<T>, i: nat) returns (j: nat)
    requires i < |a| && multiset(a) == multiset(b)
    ensures j < |b| && b[j] == a[i]
  {
    assert a[i] in multiset(b);
    j :| j < |b| && b[j] == a[i];
  }

  lemma {:induction false} HeaderlessInForce(lines: seq<I.Line>, from: nat, n: nat)
    requires from <= n <= |lines| && forall i :: from <= i < n ==> !lines[i].Header?
    ensures I.InForce(lines, n, I.Category) == I.InForce(lines, from, I.Category)
  {
    if from < n { HeaderlessInForce(lines, from, n - 1); }
  }

  lemma {:induction false} ShuffledInForce(l: seq<I.Line>, m: seq<I.Line>, from: nat, to: nat, n: nat)
    requires from <= to <= |l| && |l| == |m| && n <= |l|
    requires forall i :: from <= i < to ==> !l[i].Header? && !m[i].Header?
    requires forall i :: 0 <= i < |l| && !(from <= i < to) ==> l[i] == m[i]
    ensures I.InForce(l, n, I.Category) == I.InForce(m, n, I.Category)
  {
    if n > 0 { ShuffledInForce(l, m, from, to, n - 1); }
  }
}
