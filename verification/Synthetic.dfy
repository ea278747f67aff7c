/** Printing a synthetic list and parsing it back (benches/spoe/fixture.rs and src/firehol/ipset.rs). */
module Synthetic {
  import opened Bits
  import opened Wrappers
  import opened Text
  import opened Ipv4
  import opened Fixture
  import I = Ipset

  const DATE := "Thu Sep 10 23:59:49 UTC 2026"

  /** `# key<pad>: value` */
  function HeaderText(key: string, pad: nat, value: string): string {
    "#" + (" " + key + Spaces(pad) + ": " + value)
  }

  function Spaces(n: nat): (s: string)
    ensures |s| == n && forall c <- s :: c == ' '
  {
    seq(n, _ => ' ')
  }

  /** The header lines `synthetic_database` writes before the entries. */
  function HeaderLines(fileName: string, category: string): (lines: seq<string>)
    ensures |lines| == 7
  {
    [ HeaderText("Maintainer", 6, "spoa-bench"),
      HeaderText("Maintainer URL", 2, "https://example.invalid"),
      HeaderText("List source URL", 1, "https://example.invalid/" + fileName),
      HeaderText("Source File Date", 0, DATE),
      "#",
      HeaderText("Category", 8, category),
      "#" ]
  }

  function JoinLines(lines: seq<string>): string {
    if lines == [] then "" else lines[0] + "\n" + JoinLines(lines[1..])
  }

  function Content(fileName: string, category: string, entries: string): string {
    JoinLines(HeaderLines(fileName, category)) + entries
  }

  /** The library's address parsers read what its printers print. */
  ghost predicate ReadsItsOwnText(lib: I.Library) {
    && (forall a: u32 :: lib.address(FormatAddress(a)) == Some(a))
    && (forall net: Network :: lib.cidr(FormatNetwork(net)) == Some(net))
  }

  /** The dotted-quad grammar is such a library, whatever the date parser does. */
  lemma GrammarReadsItsOwnText(date: string -> Option<string>)
    ensures ReadsItsOwnText(I.Library(date, ParseAddress, ParseCidr))
  {
    forall a: u32 ensures ParseAddress(FormatAddress(a)) == Some(a) {
      AddressRoundTrip(a);
    }
    forall net: Network ensures ParseCidr(FormatNetwork(net)) == Some(net) {
      NetworkRoundTrip(net);
    }
  }

  // ----- header lines -----

  predicate PlainKey(key: string) {
    key != "" && Trimmed(key) && ':' !in key && '\n' !in key
  }

  predicate PlainValue(value: string) {
    Trimmed(value) && '\n' !in value
  }

  lemma {:induction false} TrimEndSpaces(s: string, pad: nat)
    requires Trimmed(s) && s != ""
    ensures TrimEnd(s + Spaces(pad)) == s
  {
    if pad == 0 {
      assert s + Spaces(0) == s;
    } else {
      assert (s + Spaces(pad))[..|s| + pad - 1] == s + Spaces(pad - 1);
      TrimEndSpaces(s, pad - 1);
    }
  }

  /** Trimming a comment strips its first blank and, before an empty value, its last. */
  lemma TrimComment(key: string, pad: nat, value: string)
    requires PlainKey(key) && PlainValue(value)
    ensures
      Trim(" " + key + Spaces(pad) + ": " + value) ==
      key + Spaces(pad) + ":" + (if value == "" then "" else " " + value)
  {
    var head := key + Spaces(pad) + ":";
    var text := " " + key + Spaces(pad) + ": " + value;
    assert text == " " + (head + " " + value);
    assert text[1..] == head + " " + value;
    assert (head + " " + value)[0] == key[0];
    assert TrimStart(text) == head + " " + value;
    if value == "" {
      assert head + " " + value == head + " ";
      assert (head + " ")[..|head|] == head;
      assert TrimEnd(head) == head;
      assert head + "" == head;
    } else {
      assert head + " " + value == head + (" " + value);
      var whole := head + " " + value;
      assert whole[|whole| - 1] == value[|value| - 1];
    }
  }

  lemma TrimValue(value: string)
    requires Trimmed(value)
    ensures Trim(if value == "" then "" else " " + value) == value
  {
    TrimmedIsFixed(value);
    if value != "" {
      assert (" " + value)[1..] == value;
    }
  }

  lemma SplitComment(key: string, pad: nat, value: string)
    requires PlainKey(key) && PlainValue(value)
    ensures
      var right := if value == "" then "" else " " + value;
      SplitOnce(Trim(" " + key + Spaces(pad) + ": " + value), ':') == Some((key + Spaces(pad), right))
  {
    var left := key + Spaces(pad);
    var right := if value == "" then "" else " " + value;
    TrimComment(key, pad, value);
    assert left + ":" + right == left + [':'] + right;
    FindAt(left, ':', right);
    hide Trim, Find, Spaces;
  }

  lemma ReadHeaderText(lib: I.Library, key: string, pad: nat, value: string)
    requires PlainKey(key) && PlainValue(value)
    ensures I.ReadLine(lib, HeaderText(key, pad, value)) == I.ReadHeader(lib, key, value)
  {
    hide SplitOnce, Spaces, Trim, TrimEnd, TrimStart, I.ParseKey, I.HeaderValue;
    var raw := HeaderText(key, pad, value);
    assert raw[1..] == " " + key + Spaces(pad) + ": " + value;
    SplitComment(key, pad, value);
    TrimEndSpaces(key, pad);
    TrimmedIsFixed(key);
    TrimmedIsFixed(value);
    TrimValue(value);
  }

  // ----- entry lines -----

  lemma EntryCharacters(a: u32, prefix: prefixlen)
    ensures EntryText(a, prefix) != ""
    ensures forall c <- EntryText(a, prefix) :: IsDigit(c) || c == '.' || c == '/'
    ensures '/' in EntryText(a, prefix) <==> prefix < 32
  {
    AddressCharacters(a);
    FormatNumberShape(prefix);
    if prefix < 32 {
      var head := FormatAddress(a);
      assert EntryText(a, prefix)[|head|] == '/';
    }
  }

  lemma PlainLine(line: string)
    requires line != "" && forall c <- line :: IsDigit(c) || c == '.' || c == '/'
    ensures Trimmed(line) && '\n' !in line && line[0] != '#' && line[|line| - 1] != '\r'
  {
    assert line[0] in line && line[|line| - 1] in line;
  }

  /** A printed network is read back as that network. */
  lemma ReadEntryText(lib: I.Library, a: u32, prefix: prefixlen)
    requires ReadsItsOwnText(lib)
    ensures I.ReadLine(lib, EntryText(a, prefix)) == I.Entry(Network(a, prefix))
  {
    hide FormatAddress, FormatNetwork;
    var line := EntryText(a, prefix);
    EntryCharacters(a, prefix);
    PlainLine(line);
    TrimmedIsFixed(line);
  }

  function EntryTexts(drawn: seq<u32>, prefix: prefixlen): (lines: seq<string>)
    ensures |lines| == |drawn|
  {
    seq(|drawn|, i requires 0 <= i < |drawn| => EntryText(drawn[i], prefix))
  }

  // ----- the whole text -----

  lemma {:induction false} LinesOfJoined(lines: seq<string>, rest: string)
    requires forall line <- lines :: Kept(line)
    ensures Lines(JoinLines(lines) + rest) == lines + Lines(rest)
  {
    hide Lines, Kept;
    if lines == [] {
      assert JoinLines(lines) + rest == rest;
    } else {
      var tail := JoinLines(lines[1..]) + rest;
      assert Kept(lines[0]);
      LinesOfJoined(lines[1..], rest);
      assert JoinLines(lines) + rest == lines[0] + "\n" + tail;
      FirstLine(lines[0], tail);
    }
  }

  lemma {:induction false} PrintListJoins(drawn: seq<u32>, prefix: prefixlen)
    ensures PrintList(drawn, prefix) == JoinLines(EntryTexts(drawn, prefix))
  {
    hide EntryText;
    if drawn != [] {
      PrintListJoins(drawn[1..], prefix);
      assert EntryTexts(drawn, prefix)[1..] == EntryTexts(drawn[1..], prefix);
    }
  }

  lemma HeaderTextKept(key: string, pad: nat, value: string)
    requires PlainKey(key) && PlainValue(value)
    ensures Kept(HeaderText(key, pad, value))
  {
    var raw := HeaderText(key, pad, value);
    if value != "" {
      assert raw[|raw| - 1] == value[|value| - 1];
    } else {
      assert raw[|raw| - 1] == ' ';
    }
  }

  /** The seven header lines, read. */
  function HeaderMeanings(fileName: string, category: string, date: string): seq<I.Line> {
    [ I.Header(I.Maintainer, "spoa-bench"),
      I.Header(I.MaintainerUrl, "https://example.invalid"),
      I.Header(I.ListSourceUrl, "https://example.invalid/" + fileName),
      I.Header(I.SourceFileDate, date),
      I.Silent,
      I.Header(I.Category, category),
      I.Silent ]
  }

  lemma ReadHeaderLines(lib: I.Library, fileName: string, category: string, date: string)
    requires PlainValue(fileName) && PlainValue(category)
    requires lib.date(DATE) == Some(date)
    ensures
      var lines := HeaderLines(fileName, category);
      && (forall line <- lines :: Kept(line))
      && (forall i :: 0 <= i < 7 ==>
            I.ReadLine(lib, lines[i]) == HeaderMeanings(fileName, category, date)[i])
  {
    hide I.ReadLine, HeaderText, Kept, PlainKey, PlainValue, I.ParseKey, I.HeaderValue;
    var url := "https://example.invalid/" + fileName;
    PlainUrl(fileName);
    PlainConstants();
    KeyMeanings(lib, url, category);
    ReadOneHeader(lib, "Maintainer", 6, "spoa-bench", I.Maintainer, "spoa-bench");
    ReadOneHeader(lib, "Maintainer URL", 2, "https://example.invalid", I.MaintainerUrl, "https://example.invalid");
    ReadOneHeader(lib, "List source URL", 1, url, I.ListSourceUrl, url);
    ReadOneHeader(lib, "Source File Date", 0, DATE, I.SourceFileDate, date);
    ReadOneHeader(lib, "Category", 8, category, I.Category, category);
    EmptyComment(lib);
  }

  lemma PlainUrl(fileName: string)
    requires PlainValue(fileName)
    ensures PlainValue("https://example.invalid/" + fileName)
  {
    var url := "https://example.invalid/" + fileName;
    if fileName != "" {
      assert url[|url| - 1] == fileName[|fileName| - 1];
    }
  }

  lemma PlainConstants()
    ensures PlainKey("Maintainer") && PlainKey("Maintainer URL") && PlainKey("List source URL")
    ensures PlainKey("Source File Date") && PlainKey("Category")
    ensures PlainValue("spoa-bench") && PlainValue("https://example.invalid") && PlainValue(DATE)
  {
    PlainMaintainerKeys();
    PlainOtherKeys();
    PlainTexts();
  }

  lemma PlainMaintainerKeys()
    ensures PlainKey("Maintainer") && PlainKey("Maintainer URL")
  {}

  lemma PlainOtherKeys()
    ensures PlainKey("List source URL") && PlainKey("Source File Date") && PlainKey("Category")
  {}

  lemma PlainTexts()
    ensures PlainValue("spoa-bench") && PlainValue("https://example.invalid") && PlainValue(DATE)
  {}

  lemma KeyMeanings(lib: I.Library, url: string, category: string)
    ensures I.ParseKey("Maintainer") == Some(I.Maintainer) && I.ParseKey("Maintainer URL") == Some(I.MaintainerUrl)
    ensures I.ParseKey("List source URL") == Some(I.ListSourceUrl)
    ensures I.ParseKey("Source File Date") == Some(I.SourceFileDate) && I.ParseKey("Category") == Some(I.Category)
    ensures I.HeaderValue(lib, I.SourceFileDate, DATE) == lib.date(DATE)
    ensures forall key, raw :: key != I.SourceFileDate ==> I.HeaderValue(lib, key, raw) == Some(raw)
  {}

  lemma EmptyComment(lib: I.Library)
    ensures I.ReadLine(lib, "#") == I.Silent && Kept("#")
  {
    assert "#"[1..] == "";
  }

  lemma ReadOneHeader(lib: I.Library, key: string, pad: nat, raw: string, k: I.HeaderKey, value: string)
    requires PlainKey(key) && PlainValue(raw)
    requires I.ParseKey(key) == Some(k) && I.HeaderValue(lib, k, raw) == Some(value)
    ensures I.ReadLine(lib, HeaderText(key, pad, raw)) == I.Header(k, value)
    ensures Kept(HeaderText(key, pad, raw))
  {
    ReadHeaderText(lib, key, pad, raw);
    HeaderTextKept(key, pad, raw);
    TrimmedIsFixed(key);
    TrimmedIsFixed(raw);
  }

  lemma EntriesRead(lib: I.Library, drawn: seq<u32>, prefix: prefixlen)
    requires ReadsItsOwnText(lib)
    ensures
      forall i :: 0 <= i < |drawn| ==>
        && Kept(EntryTexts(drawn, prefix)[i])
        && I.ReadLine(lib, EntryTexts(drawn, prefix)[i]) == Entries(drawn, prefix)[i]
  {
    hide EntryText, I.ReadLine, Kept;
    var texts := EntryTexts(drawn, prefix);
    forall i | 0 <= i < |drawn| ensures Kept(texts[i]) && I.ReadLine(lib, texts[i]) == Entries(drawn, prefix)[i] {
      EntryKept(drawn[i], prefix);
      ReadEntryText(lib, drawn[i], prefix);
    }
  }

  lemma EntryKept(a: u32, prefix: prefixlen)
    ensures Kept(EntryText(a, prefix))
  {
    hide EntryText;
    EntryCharacters(a, prefix);
    PlainLine(EntryText(a, prefix));
  }

  /** The lines of the text, read: the header, then one entry a network. */
  lemma ReadContent(
    lib: I.Library, fileName: string, category: string, date: string, drawn: seq<u32>, prefix: prefixlen)
    requires ReadsItsOwnText(lib) && lib.date(DATE) == Some(date)
    requires PlainValue(fileName) && PlainValue(category)
    ensures
      I.ReadLines(lib, Content(fileName, category, PrintList(drawn, prefix))) ==
      HeaderMeanings(fileName, category, date) + Entries(drawn, prefix)
  {
    hide EntryTexts, Entries, HeaderLines, HeaderMeanings, PrintList, I.ReadLine, Kept, ReadsItsOwnText, PlainValue;
    var head, texts := HeaderLines(fileName, category), EntryTexts(drawn, prefix);
    ReadHeaderLines(lib, fileName, category, date);
    EntriesRead(lib, drawn, prefix);
    PrintListJoins(drawn, prefix);
    LinesOfJoined(texts, "");
    assert JoinLines(texts) + "" == JoinLines(texts);
    LinesOfJoined(head, PrintList(drawn, prefix));
    assert Lines("") == [];
    hide Lines, JoinLines;
    assert texts + [] == texts;
    HeaderSize(fileName, category, date);
    var content := Content(fileName, category, PrintList(drawn, prefix));
    assert Lines(content) == head + texts;
    var meant := HeaderMeanings(fileName, category, date) + Entries(drawn, prefix);
    forall i | 0 <= i < |meant| ensures I.ReadLines(lib, content)[i] == meant[i] {
      assert i >= 7 ==> (head + texts)[i] == texts[i - 7] && meant[i] == Entries(drawn, prefix)[i - 7];
    }
  }

  function Entries(drawn: seq<u32>, prefix: prefixlen): (lines: seq<I.Line>)
    ensures |lines| == |drawn|
  {
    seq(|drawn|, i requires 0 <= i < |drawn| => I.Entry(Network(drawn[i], prefix)))
  }

  function Networks(drawn: seq<u32>, prefix: prefixlen): (nets: seq<Network>)
    ensures |nets| == |drawn|
  {
    seq(|drawn|, i requires 0 <= i < |drawn| => Network(drawn[i], prefix))
  }

  /** The header values the text carries. */
  function HeaderMetadata(fileName: string, category: string, date: string): I.Metadata {
    I.Metadata(date, "https://example.invalid/" + fileName, "https://example.invalid", "spoa-bench", category)
  }

  /** After the header the parser holds the header values and no section. */
  lemma HeaderFrozen(fileName: string, category: string, date: string, rest: seq<I.Line>)
    ensures
      var lines := HeaderMeanings(fileName, category, date) + rest;
      && I.MetadataAt(lines, 7) == HeaderMetadata(fileName, category, date)
      && I.Facts(lines, 7) == []
      && I.Frozen(lines, 7, [], HeaderMetadata(fileName, category, date), [])
  {
    var lines := HeaderMeanings(fileName, category, date) + rest;
    assert forall i :: 0 <= i < 7 ==> lines[i] == HeaderMeanings(fileName, category, date)[i];
    NoFacts(lines, 7);
    LastInForce(lines, 7, I.Maintainer, 0);
    LastInForce(lines, 7, I.MaintainerUrl, 1);
    LastInForce(lines, 7, I.ListSourceUrl, 2);
    LastInForce(lines, 7, I.SourceFileDate, 3);
    LastInForce(lines, 7, I.Category, 5);
  }

  lemma {:induction false} NoFacts(lines: seq<I.Line>, n: nat)
    requires n <= |lines| && forall i :: 0 <= i < n ==> !lines[i].Entry?
    ensures I.Facts(lines, n) == [] && I.Epochs(lines, n) == []
  {
    if n > 0 { NoFacts(lines, n - 1); }
  }

  /** The value in force is that of the last header line with the key. */
  lemma {:induction false} LastInForce(lines: seq<I.Line>, n: nat, key: I.HeaderKey, i: nat)
    requires i < n <= |lines| && lines[i].Header? && lines[i].key == key
    requires forall j :: i < j < n ==> !(lines[j].Header? && lines[j].key == key)
    ensures I.InForce(lines, n, key) == lines[i].value
  {
    if i < n - 1 { LastInForce(lines, n - 1, key, i); }
  }

  lemma {:induction false} EntriesFrozen(
    head: seq<I.Line>, metadata: I.Metadata, drawn: seq<u32>, prefix: prefixlen, k: nat)
    requires k <= |drawn|
    requires
      var lines := head + Entries(drawn, prefix);
      I.MetadataAt(lines, |head|) == metadata && I.Frozen(lines, |head|, [], metadata, [])
    ensures
      var lines := head + Entries(drawn, prefix);
      && I.MetadataAt(lines, |head| + k) == metadata
      && I.Frozen(lines, |head| + k, [], metadata, Networks(drawn, prefix)[..k])
  {
    hide I.Frozen, I.MetadataAt;
    var lines, nets := head + Entries(drawn, prefix), Networks(drawn, prefix);
    if k == 0 {
      assert nets[..0] == [];
    } else {
      EntriesFrozen(head, metadata, drawn, prefix, k - 1);
      assert lines[|head| + k - 1] == I.Entry(nets[k - 1]);
      I.EntryStep(lines, |head| + k - 1, [], metadata, nets[..k - 1], nets[k - 1]);
      assert nets[..k] == nets[..k - 1] + [nets[k - 1]];
    }
  }

  /**
   * Printing then parsing: the text of a synthetic list is well-formed and parses to one section that
   * holds exactly the drawn networks, in order, under the given category.
   */
  lemma PrintThenParse(
    lib: I.Library, fileName: string, category: string, date: string, drawn: seq<u32>, prefix: prefixlen)
    requires ReadsItsOwnText(lib) && lib.date(DATE) == Some(date)
    requires PlainValue(fileName) && PlainValue(category)
    requires drawn != []
    ensures
      var lines := I.ReadLines(lib, Content(fileName, category, PrintList(drawn, prefix)));
      && (forall line <- lines :: !line.IsBad())
      && I.SectionsOf(lines, |lines|) ==
         [I.Section(HeaderMetadata(fileName, category, date), Networks(drawn, prefix))]
  {
    hide PrintList, Content, I.ReadLines, HeaderMetadata, HeaderMeanings, Entries, Networks;
    var head, metadata := HeaderMeanings(fileName, category, date), HeaderMetadata(fileName, category, date);
    ReadContent(lib, fileName, category, date, drawn, prefix);
    NoneBad(fileName, category, date, drawn, prefix);
    HeaderFrozen(fileName, category, date, Entries(drawn, prefix));
    HeaderSize(fileName, category, date);
    hide I.Frozen, I.MetadataAt, I.Facts, I.SectionsOf;
    EntriesFrozen(head, metadata, drawn, prefix, |drawn|);
    var nets := Networks(drawn, prefix);
    assert nets[..|drawn|] == nets;
    I.EverythingRead(head + Entries(drawn, prefix), [], metadata, nets);
  }

  lemma HeaderSize(fileName: string, category: string, date: string)
    ensures |HeaderMeanings(fileName, category, date)| == 7
  {}

  lemma NoneBad(fileName: string, category: string, date: string, drawn: seq<u32>, prefix: prefixlen)
    ensures forall line <- HeaderMeanings(fileName, category, date) + Entries(drawn, prefix) :: !line.IsBad()
  {}
}
