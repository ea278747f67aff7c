/** The list-file parser (src/firehol/ipset.rs). */
module Ipset {
  import opened Bits
  import opened Wrappers
  import opened Text
  import opened Ipv4

  datatype HeaderKey = Category | MaintainerUrl | Maintainer | ListSourceUrl | SourceFileDate

  datatype Metadata = Metadata(
    sourceFileDate: string,
    listSourceUrl: string,
    maintainerUrl: string,
    maintainer: string,
    category: string)
  {
    function Get(key: HeaderKey): string {
      match key
      case Category => category
      case MaintainerUrl => maintainerUrl
      case Maintainer => maintainer
      case ListSourceUrl => listSourceUrl
      case SourceFileDate => sourceFileDate
    }

    function Set(key: HeaderKey, value: string): Metadata {
      match key
      case Category => this.(category := value)
      case MaintainerUrl => this.(maintainerUrl := value)
      case Maintainer => this.(maintainer := value)
      case ListSourceUrl => this.(listSourceUrl := value)
      case SourceFileDate => this.(sourceFileDate := value)
    }
  }

  const NO_METADATA := Metadata("", "", "", "", "")

  datatype Section = Section(metadata: Metadata, networks: seq<Network>)

  datatype Ipset = Ipset(fileName: string, sections: seq<Section>)

  function NetworkCount(sections: seq<Section>): nat {
    if sections == [] then 0
    else NetworkCount(sections[..|sections| - 1]) + |sections[|sections| - 1].networks|
  }

  /** The foreign parsers the module calls: chrono's date conversion, `Ipv4Addr` and `Ipv4Net`. */
  datatype Library = Library(
    date: string -> Option<string>,
    address: string -> Option<u32>,
    cidr: string -> Option<Network>)

  function ParseKey(key: string): Option<HeaderKey> {
    if key == "Category" then Some(Category)
    else if key == "Maintainer URL" then Some(MaintainerUrl)
    else if key == "Maintainer" then Some(Maintainer)
    else if key == "List source URL" then Some(ListSourceUrl)
    else if key == "Source File Date" then Some(SourceFileDate)
    else None
  }

  function HeaderValue(lib: Library, key: HeaderKey, raw: string): Option<string> {
    if key == SourceFileDate then lib.date(raw) else Some(raw)
  }

  function ParseNetwork(lib: Library, entry: string): Option<Network> {
    if '/' in entry then lib.cidr(entry)
    else
      match lib.address(entry)
      case Some(a) => Some(Network(a, 32))
      case None => None
  }

  /** What one line of a list file says. */
  datatype Line =
    | Silent
    | Header(key: HeaderKey, value: string)
    | Entry(network: Network)
    | BadHeader(badKey: HeaderKey)
    | BadEntry(text: string)
  {
    predicate IsBad() {
      BadHeader? || BadEntry?
    }
  }

  function ReadLine(lib: Library, raw: string): Line {
    if raw != "" && raw[0] == '#' then
      match SplitOnce(Trim(raw[1..]), ':')
      case None => Silent
      case Some((key, value)) => ReadHeader(lib, key, value)
    else
      var entry := Trim(raw);
      if entry == "" then Silent
      else
        match ParseNetwork(lib, entry)
        case Some(net) => Entry(net)
        case None => BadEntry(entry)
  }

  function ReadHeader(lib: Library, key: string, value: string): Line {
    match ParseKey(TrimEnd(key))
    case None => Silent
    case Some(key) =>
      match HeaderValue(lib, key, Trim(value))
      case Some(v) => Header(key, v)
      case None => BadHeader(key)
  }

  /** The failure of `parse`: what was wrong, and the number of the line, counted from one. */
  datatype ParseError = ParseError(lineNumber: nat, line: Line)

  function ReadLines(lib: Library, content: string): (lines: seq<Line>)
    ensures |lines| == |Lines(content)|
  {
    var raw := Lines(content);
    seq(|raw|, i requires 0 <= i < |raw| => ReadLine(lib, raw[i]))
  }

  // ----- the meaning of a file, line by line -----

  /** Value of the last `key` header among the first `n` lines; empty when there is none. */
  function InForce(lines: seq<Line>, n: nat, key: HeaderKey): string
    requires n <= |lines|
  {
    if n == 0 then ""
    else if lines[n - 1].Header? && lines[n - 1].key == key then lines[n - 1].value
    else InForce(lines, n - 1, key)
  }

  /** Header values in force just before line `n`. */
  function MetadataAt(lines: seq<Line>, n: nat): Metadata
    requires n <= |lines|
  {
    Metadata(
      InForce(lines, n, SourceFileDate),
      InForce(lines, n, ListSourceUrl),
      InForce(lines, n, MaintainerUrl),
      InForce(lines, n, Maintainer),
      InForce(lines, n, Category))
  }

  /** Number of header lines, among the first `n`, that changed the value in force. */
  function Changes(lines: seq<Line>, n: nat): nat
    requires n <= |lines|
  {
    if n == 0 then 0
    else
      Changes(lines, n - 1) +
      (if lines[n - 1].Header? && InForce(lines, n - 1, lines[n - 1].key) != lines[n - 1].value then 1 else 0)
  }

  /** An entry line: its network and the header values in force there. */
  datatype Fact = Fact(metadata: Metadata, network: Network)

  /** The entry lines among the first `n`, in line order. */
  function Facts(lines: seq<Line>, n: nat): seq<Fact>
    requires n <= |lines|
  {
    if n == 0 then []
    else if lines[n - 1].Entry? then
      Facts(lines, n - 1) + [Fact(MetadataAt(lines, n - 1), lines[n - 1].network)]
    else Facts(lines, n - 1)
  }

  /** For each entry line, how many header changes precede it. */
  function Epochs(lines: seq<Line>, n: nat): (epochs: seq<nat>)
    requires n <= |lines|
    ensures |epochs| == |Facts(lines, n)|
  {
    if n == 0 then []
    else if lines[n - 1].Entry? then Epochs(lines, n - 1) + [Changes(lines, n - 1)]
    else Epochs(lines, n - 1)
  }

  /** Splits `facts` into the maximal runs of equal epoch. */
  function Runs(facts: seq<Fact>, epochs: seq<nat>): (sections: seq<Section>)
    requires |facts| == |epochs|
    ensures sections == [] <==> facts == []
  {
    if facts == [] then []
    else
      var n := |facts| - 1;
      Push(Runs(facts[..n], epochs[..n]), n > 0 && epochs[n - 1] == epochs[n], facts[n])
  }

  /** Adds a fact to the last section, or opens a new one. */
  function Push(sections: seq<Section>, join: bool, fact: Fact): seq<Section>
    requires join ==> sections != []
  {
    if join then
      var n := |sections| - 1;
      sections[..n] + [Section(sections[n].metadata, sections[n].networks + [fact.network])]
    else
      sections + [Section(fact.metadata, [fact.network])]
  }

  /** The sections of a well-formed file. */
  function SectionsOf(lines: seq<Line>, n: nat): seq<Section>
    requires n <= |lines|
  {
    Runs(Facts(lines, n), Epochs(lines, n))
  }

  predicate FirstBad(lines: seq<Line>, n: nat) {
    n < |lines| && lines[n].IsBad() && forall i :: 0 <= i < n ==> !lines[i].IsBad()
  }

  // ----- the parser -----

  method Parse(lib: Library, fileName: string, content: string) returns (r: Result<Ipset, ParseError>)
    ensures Parsed(fileName, ReadLines(lib, content), r)
  {
    r := ParseLines(fileName, ReadLines(lib, content));
  }

  /** What `parse` promises: the sections of a well-formed file, or the first malformed line. */
  ghost predicate Parsed(fileName: string, lines: seq<Line>, r: Result<Ipset, ParseError>) {
    match r
    case Ok(ipset) =>
      && (forall i :: 0 <= i < |lines| ==> !lines[i].IsBad())
      && ipset == Ipset(fileName, SectionsOf(lines, |lines|))
    case Err(e) =>
      && e.lineNumber > 0
      && FirstBad(lines, e.lineNumber - 1)
      && e.line == lines[e.lineNumber - 1]
  }

  /** The section-splitting loop of `parse`, line by line. */
  method ParseLines(fileName: string, lines: seq<Line>) returns (r: Result<Ipset, ParseError>)
    ensures Parsed(fileName, lines, r)
  {
    var networks: seq<Network>, sections: seq<Section>, metadata := [], [], NO_METADATA;
    NothingRead(lines);
    hide Frozen, MetadataAt, SectionsOf;

    for index := 0 to |lines|
      invariant metadata == MetadataAt(lines, index)
      invariant forall i :: 0 <= i < index ==> !lines[i].IsBad()
      invariant Frozen(lines, index, sections, metadata, networks)
    {
      var line := lines[index];
      if line.IsBad() {
        return Err(ParseError(index + 1, line));
      }
      match line {
        case Header(key, value) =>
          HeaderStep(lines, index, sections, metadata, networks);
          if metadata.Get(key) != value {
            assert sections + [] == sections;
            if networks != [] {
              sections := sections + [Section(metadata, networks)];
              networks := [];
            }
            metadata := metadata.Set(key, value);
          }
        case Entry(net) =>
          EntryStep(lines, index, sections, metadata, networks, net);
          networks := networks + [net];
        case Silent =>
          SilentStep(lines, index, sections, metadata, networks);
      }
    }

    EverythingRead(lines, sections, metadata, networks);
    assert sections + [] == sections;
    if networks != [] {
      sections := sections + [Section(metadata, networks)];
    }
    return Ok(Ipset(fileName, sections));
  }

  // ----- one turn of the parser's loop -----

  /** Finished sections and the open one, as the parser's three variables hold them before line `n`. */
  ghost predicate Frozen(lines: seq<Line>, n: nat, sections: seq<Section>, metadata: Metadata, networks: seq<Network>)
    requires n <= |lines|
  {
    var epochs := Epochs(lines, n);
    && SectionsOf(lines, n) == sections + Open(metadata, networks)
    && (epochs != [] ==> epochs[|epochs| - 1] <= Changes(lines, n))
    && (networks != [] <==> epochs != [] && epochs[|epochs| - 1] == Changes(lines, n))
  }

  lemma NothingRead(lines: seq<Line>)
    ensures MetadataAt(lines, 0) == NO_METADATA && Frozen(lines, 0, [], NO_METADATA, [])
  {}

  lemma EverythingRead(lines: seq<Line>, sections: seq<Section>, metadata: Metadata, networks: seq<Network>)
    requires Frozen(lines, |lines|, sections, metadata, networks)
    ensures SectionsOf(lines, |lines|) == sections + Open(metadata, networks)
  {}

  lemma SameFields(a: Metadata, b: Metadata)
    requires forall k :: a.Get(k) == b.Get(k)
    ensures a == b
  {
    assert a.Get(Category) == b.Get(Category) && a.Get(Maintainer) == b.Get(Maintainer);
    assert a.Get(MaintainerUrl) == b.Get(MaintainerUrl) && a.Get(ListSourceUrl) == b.Get(ListSourceUrl);
    assert a.Get(SourceFileDate) == b.Get(SourceFileDate);
  }

  function Open(metadata: Metadata, networks: seq<Network>): seq<Section> {
    if networks == [] then [] else [Section(metadata, networks)]
  }

  lemma HeaderStep(lines: seq<Line>, n: nat, sections: seq<Section>, metadata: Metadata, networks: seq<Network>)
    requires n < |lines| && lines[n].Header? && metadata == MetadataAt(lines, n)
    requires Frozen(lines, n, sections, metadata, networks)
    ensures
      var Header(key, value) := lines[n];
      if metadata.Get(key) != value then
        && metadata.Set(key, value) == MetadataAt(lines, n + 1)
        && Frozen(lines, n + 1, sections + Open(metadata, networks), metadata.Set(key, value), [])
      else
        && metadata == MetadataAt(lines, n + 1)
        && Frozen(lines, n + 1, sections, metadata, networks)
  {}

  lemma SilentStep(lines: seq<Line>, n: nat, sections: seq<Section>, metadata: Metadata, networks: seq<Network>)
    requires n < |lines| && lines[n].Silent? && metadata == MetadataAt(lines, n)
    requires Frozen(lines, n, sections, metadata, networks)
    ensures metadata == MetadataAt(lines, n + 1)
    ensures Frozen(lines, n + 1, sections, metadata, networks)
  {
    SameFields(metadata, MetadataAt(lines, n + 1));
  }

  lemma EntryStep(
    lines: seq<Line>, n: nat, sections: seq<Section>, metadata: Metadata, networks: seq<Network>, net: Network)
    requires n < |lines| && lines[n] == Entry(net) && metadata == MetadataAt(lines, n)
    requires Frozen(lines, n, sections, metadata, networks)
    ensures metadata == MetadataAt(lines, n + 1)
    ensures Frozen(lines, n + 1, sections, metadata, networks + [net])
  {
    EntryPushes(lines, n, net);
    SameFields(metadata, MetadataAt(lines, n + 1));
    hide SectionsOf, Epochs, Changes, MetadataAt;
    var done := SectionsOf(lines, n);
    if networks != [] {
      assert done[..|done| - 1] == sections;
    } else {
      assert done == sections && networks + [net] == [net];
    }
  }

  /** An entry line adds its fact to the section in progress, or opens one. */
  lemma EntryPushes(lines: seq<Line>, n: nat, net: Network)
    requires n < |lines| && lines[n] == Entry(net)
    ensures Changes(lines, n + 1) == Changes(lines, n)
    ensures Epochs(lines, n + 1) == Epochs(lines, n) + [Changes(lines, n)]
    ensures
      var epochs, done := Epochs(lines, n), SectionsOf(lines, n);
      var join := epochs != [] && epochs[|epochs| - 1] == Changes(lines, n);
      (join ==> done != []) && SectionsOf(lines, n + 1) == Push(done, join, Fact(MetadataAt(lines, n), net))
  {
    EntryFacts(lines, n, net);
    hide Facts, Epochs, Changes, MetadataAt, Runs, Push;
    RunsAppend(Facts(lines, n), Epochs(lines, n), Fact(MetadataAt(lines, n), net), Changes(lines, n));
  }

  lemma EntryFacts(lines: seq<Line>, n: nat, net: Network)
    requires n < |lines| && lines[n] == Entry(net)
    ensures Changes(lines, n + 1) == Changes(lines, n)
    ensures Facts(lines, n + 1) == Facts(lines, n) + [Fact(MetadataAt(lines, n), net)]
    ensures Epochs(lines, n + 1) == Epochs(lines, n) + [Changes(lines, n)]
  {
    hide MetadataAt;
  }

  lemma RunsAppend(facts: seq<Fact>, epochs: seq<nat>, fact: Fact, epoch: nat)
    requires |facts| == |epochs|
    ensures
      var join := epochs != [] && epochs[|epochs| - 1] == epoch;
      var done := Runs(facts, epochs);
      (join ==> done != []) && Runs(facts + [fact], epochs + [epoch]) == Push(done, join, fact)
  {
    hide Push;
    RunsStep(facts + [fact], epochs + [epoch]);
    assert (facts + [fact])[..|facts|] == facts && (epochs + [epoch])[..|facts|] == epochs;
  }

  // ----- what the sections say -----

  /** The facts a list of sections states, in order. */
  function Flatten(sections: seq<Section>): seq<Fact> {
    if sections == [] then []
    else
      var last := sections[|sections| - 1];
      Flatten(sections[..|sections| - 1]) + SectionFacts(last)
  }

  function SectionFacts(s: Section): (facts: seq<Fact>)
    ensures |facts| == |s.networks|
  {
    seq(|s.networks|, i requires 0 <= i < |s.networks| => Fact(s.metadata, s.networks[i]))
  }

  /** Entries with no header change between them share their metadata. */
  ghost predicate Agree(facts: seq<Fact>, epochs: seq<nat>) {
    && |facts| == |epochs|
    && forall i :: 0 < i < |facts| && epochs[i - 1] == epochs[i] ==> facts[i - 1].metadata == facts[i].metadata
  }

  lemma {:induction false} LinesAgree(lines: seq<Line>, n: nat)
    requires n <= |lines|
    ensures Agree(Facts(lines, n), Epochs(lines, n))
    ensures
      var facts, epochs := Facts(lines, n), Epochs(lines, n);
      facts != [] ==>
        && epochs[|epochs| - 1] <= Changes(lines, n)
        && (epochs[|epochs| - 1] == Changes(lines, n) ==> facts[|facts| - 1].metadata == MetadataAt(lines, n))
  {
    if n > 0 {
      LinesAgree(lines, n - 1);
      if Changes(lines, n - 1) == Changes(lines, n) {
        SameFields(MetadataAt(lines, n - 1), MetadataAt(lines, n));
      }
    }
  }

  lemma {:induction false} RunsFlatten(facts: seq<Fact>, epochs: seq<nat>)
    requires Agree(facts, epochs)
    ensures Flattens(Runs(facts, epochs), facts)
  {
    if facts != [] {
      var n := |facts| - 1;
      assert Agree(facts[..n], epochs[..n]);
      RunsFlatten(facts[..n], epochs[..n]);
      RunsStep(facts, epochs);
      assert n > 0 && epochs[n - 1] == epochs[n] ==> facts[..n][n - 1].metadata == facts[n].metadata;
      hide Runs, Agree;
      PushFlatten(Runs(facts[..n], epochs[..n]), n > 0 && epochs[n - 1] == epochs[n], facts[..n], facts[n]);
      assert facts == facts[..n] + [facts[n]];
    }
  }

  /** The sections hold exactly these facts, and none is empty. */
  ghost predicate Flattens(sections: seq<Section>, facts: seq<Fact>) {
    && Flatten(sections) == facts
    && (forall s <- sections :: s.networks != [])
    && NetworkCount(sections) == |facts|
    && (facts != [] ==> sections != [] && sections[|sections| - 1].metadata == facts[|facts| - 1].metadata)
  }

  lemma RunsStep(facts: seq<Fact>, epochs: seq<nat>)
    requires facts != [] && |facts| == |epochs|
    ensures
      var n := |facts| - 1;
      var join := n > 0 && epochs[n - 1] == epochs[n];
      var done := Runs(facts[..n], epochs[..n]);
      (join ==> done != []) && Runs(facts, epochs) == Push(done, join, facts[n])
  {}

  lemma PushFlatten(sections: seq<Section>, join: bool, facts: seq<Fact>, fact: Fact)
    requires Flattens(sections, facts)
    requires join ==> facts != [] && facts[|facts| - 1].metadata == fact.metadata
    ensures (join ==> sections != []) && Flattens(Push(sections, join, fact), facts + [fact])
  {
    var pushed := Push(sections, join, fact);
    var last := pushed[|pushed| - 1];
    if join {
      var n := |sections| - 1;
      assert pushed[..n] == sections[..n];
      assert SectionFacts(last) == SectionFacts(sections[n]) + [fact];
    } else {
      assert pushed[..|sections|] == sections;
      assert SectionFacts(last) == [fact];
    }
  }

  /**
   * Sections lose nothing and add nothing: flattened, they are the entry lines in line order, each
   * with the header values in force at its line; none is empty.
   */
  lemma SectionsRefineLines(lines: seq<Line>)
    ensures
      var sections := SectionsOf(lines, |lines|);
      && Flatten(sections) == Facts(lines, |lines|)
      && (forall s <- sections :: s.networks != [])
      && NetworkCount(sections) == EntryCount(lines, |lines|)
  {
    LinesAgree(lines, |lines|);
    RunsFlatten(Facts(lines, |lines|), Epochs(lines, |lines|));
    FactsCount(lines, |lines|);
  }

  function EntryCount(lines: seq<Line>, n: nat): nat
    requires n <= |lines|
  {
    if n == 0 then 0 else EntryCount(lines, n - 1) + (if lines[n - 1].Entry? then 1 else 0)
  }

  lemma {:induction false} FactsCount(lines: seq<Line>, n: nat)
    requires n <= |lines|
    ensures |Facts(lines, n)| == EntryCount(lines, n)
  {
    if n > 0 { FactsCount(lines, n - 1); }
  }

  /** A fact of a file is exactly one of its entry lines with the headers in force there. */
  lemma {:induction false} FactsAreEntryLines(lines: seq<Line>, n: nat, fact: Fact)
    requires n <= |lines|
    ensures fact in Facts(lines, n) <==>
      exists i :: 0 <= i < n && lines[i] == Entry(fact.network) && fact.metadata == MetadataAt(lines, i)
  {
    if n > 0 { FactsAreEntryLines(lines, n - 1, fact); }
  }
}
