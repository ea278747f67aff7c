/** The database index and its construction (src/firehol/builder.rs, `record` and `write_mmdb`). */
module Builder {
  import opened Bits
  import opened Wrappers
  import opened Ipv4
  import I = Ipset

  // ----- records -----

  /** Six parallel arrays: index `i` of every array describes the same list. */
  datatype Record = Record(
    fileName: seq<string>,
    sourceFileDate: seq<string>,
    listSourceUrl: seq<string>,
    maintainerUrl: seq<string>,
    maintainer: seq<string>,
    category: seq<string>)

  /** The record of one list. */
  function Single(fileName: string, metadata: I.Metadata): Record {
    Record([fileName], [metadata.sourceFileDate], [metadata.listSourceUrl], [metadata.maintainerUrl],
           [metadata.maintainer], [metadata.category])
  }

  /** `Value::merge_deep` on records: the old arrays, then the new ones. */
  function MergeDeep(old_: Record, new_: Record): Record {
    Record(old_.fileName + new_.fileName,
           old_.sourceFileDate + new_.sourceFileDate,
           old_.listSourceUrl + new_.listSourceUrl,
           old_.maintainerUrl + new_.maintainerUrl,
           old_.maintainer + new_.maintainer,
           old_.category + new_.category)
  }

  /** The closure that `write_mmdb` hands to `insert_with`. */
  function Merge(existing: Option<Record>, value: Record): Option<Record> {
    match existing
    case Some(record) => Some(MergeDeep(record, value))
    case None => Some(value)
  }

  // ----- the binary search tree -----

  /** Search tree of the MaxMind DB format: a leaf serves every address below it. */
  datatype Tree = Leaf(record: Option<Record>) | Node(zero: Tree, one: Tree)

  /** No path of the tree is longer than `depth`. */
  predicate Fits(tree: Tree, depth: nat) {
    tree.Leaf? || (depth > 0 && Fits(tree.zero, depth - 1) && Fits(tree.one, depth - 1))
  }

  function Lookup(tree: Tree, path: seq<bool>): Option<Record>
    requires Fits(tree, |path|)
  {
    match tree
    case Leaf(record) => record
    case Node(zero, one) => Lookup(if path[0] then one else zero, path[1..])
  }

  /** Merges `value` into every leaf below `path`, splitting the leaves met on the way down. */
  function Insert(tree: Tree, path: seq<bool>, value: Record): Tree
    decreases |path|, tree
  {
    if path == [] then
      match tree
      case Leaf(record) => Leaf(Merge(record, value))
      case Node(zero, one) => Node(Insert(zero, [], value), Insert(one, [], value))
    else
      var zero := if tree.Leaf? then tree else tree.zero;
      var one := if tree.Leaf? then tree else tree.one;
      if path[0] then Node(zero, Insert(one, path[1..], value))
      else Node(Insert(zero, path[1..], value), one)
  }

  /** After an insertion the addresses below `path` have the merged record; all others keep theirs. */
  lemma {:induction false} InsertLookup(tree: Tree, path: seq<bool>, value: Record, address: seq<bool>)
    requires |path| <= |address| && Fits(tree, |address|)
    ensures Fits(Insert(tree, path, value), |address|)
    ensures
      Lookup(Insert(tree, path, value), address) ==
      if path <= address then Merge(Lookup(tree, address), value) else Lookup(tree, address)
    decreases |path|, tree
  {
    if path == [] {
      if tree.Node? {
        InsertLookup(tree.zero, [], value, address[1..]);
        InsertLookup(tree.one, [], value, address[1..]);
      }
    } else {
      var zero := if tree.Leaf? then tree else tree.zero;
      var one := if tree.Leaf? then tree else tree.one;
      InsertLookup(if path[0] then one else zero, path[1..], value, address[1..]);
      assert path <= address <==> path[0] == address[0] && path[1..] <= address[1..];
    }
  }

  // ----- the reference: a scan of the list lines -----

  /** A network of a list file, with the file's name and the header values in force. */
  datatype Listing = Listing(fileName: string, fact: I.Fact)

  /** Every listing in insertion order: file by file, section by section. */
  function Listings(ipsets: seq<I.Ipset>): seq<Listing> {
    if ipsets == [] then []
    else
      var last := ipsets[|ipsets| - 1];
      Listings(ipsets[..|ipsets| - 1]) + FileListings(last.fileName, last.sections)
  }

  /** The listings of the files come one file after the other. */
  lemma {:induction false} ListingsAppend(a: seq<I.Ipset>, b: seq<I.Ipset>)
    ensures Listings(a + b) == Listings(a) + Listings(b)
  {
    if b == [] {
      assert a + b == a;
    } else {
      var n := |b| - 1;
      ListingsAppend(a, b[..n]);
      assert (a + b)[..|a| + n] == a + b[..n] && (a + b)[|a| + n] == b[n];
      var last := FileListings(b[n].fileName, b[n].sections);
      assert Listings(a + b) == Listings(a + b[..n]) + last && Listings(b) == Listings(b[..n]) + last;
      hide Listings, FileListings;
      Regroup(Listings(a), Listings(b[..n]), last);
    }
  }

  lemma ListingsOfOne(ipset: I.Ipset)
    ensures Listings([ipset]) == FileListings(ipset.fileName, ipset.sections)
  {
    assert [ipset][..0] == [];
  }

  function FileListings(fileName: string, sections: seq<I.Section>): seq<Listing> {
    if sections == [] then []
    else
      FileListings(fileName, sections[..|sections| - 1]) + SectionListings(fileName, sections[|sections| - 1])
  }

  function SectionListings(fileName: string, section: I.Section): (listings: seq<Listing>)
    ensures |listings| == |section.networks|
  {
    Named(fileName, I.SectionFacts(section))
  }

  function Named(fileName: string, facts: seq<I.Fact>): (listings: seq<Listing>)
    ensures |listings| == |facts|
  {
    seq(|facts|, i requires 0 <= i < |facts| => Listing(fileName, facts[i]))
  }

  /** The listings whose network contains `address`, in order. */
  function Covering(listings: seq<Listing>, address: u32): seq<Listing> {
    if listings == [] then []
    else
      var n := |listings| - 1;
      Covering(listings[..n], address) +
      (if Contains(listings[n].fact.network, address) then [listings[n]] else [])
  }

  /** One array entry per listing, in order. */
  function RecordOf(ls: seq<Listing>): Record {
    Record(
      seq(|ls|, i requires 0 <= i < |ls| => ls[i].fileName),
      seq(|ls|, i requires 0 <= i < |ls| => ls[i].fact.metadata.sourceFileDate),
      seq(|ls|, i requires 0 <= i < |ls| => ls[i].fact.metadata.listSourceUrl),
      seq(|ls|, i requires 0 <= i < |ls| => ls[i].fact.metadata.maintainerUrl),
      seq(|ls|, i requires 0 <= i < |ls| => ls[i].fact.metadata.maintainer),
      seq(|ls|, i requires 0 <= i < |ls| => ls[i].fact.metadata.category))
  }

  /** The record a plain scan of all listings finds for `address`. */
  function Scan(listings: seq<Listing>, address: u32): Option<Record> {
    var covering := Covering(listings, address);
    if covering == [] then None else Some(RecordOf(covering))
  }

  /** The tree answers every address as a scan of `listings` does. */
  ghost predicate Indexes(tree: Tree, listings: seq<Listing>) {
    && Fits(tree, 32)
    && forall a: u32 :: Lookup(tree, AddressPath(a)) == Scan(listings, a)
  }

  lemma ScanExtends(listings: seq<Listing>, l: Listing, a: u32)
    ensures
      Scan(listings + [l], a) ==
      if Contains(l.fact.network, a) then Merge(Scan(listings, a), Single(l.fileName, l.fact.metadata))
      else Scan(listings, a)
  {
    assert (listings + [l])[..|listings|] == listings;
    var before := Covering(listings, a);
    if Contains(l.fact.network, a) {
      var value := Single(l.fileName, l.fact.metadata);
      assert Covering(listings + [l], a) == before + [l];
      if before == [] {
        assert before + [l] == [l];
        assert RecordOf([l]) == value;
      } else {
        assert RecordOf(before + [l]) == MergeDeep(RecordOf(before), value);
      }
    } else {
      assert Covering(listings + [l], a) == before;
    }
  }

  lemma InsertIndexes(tree: Tree, listings: seq<Listing>, l: Listing)
    requires Indexes(tree, listings)
    ensures
      Indexes(Insert(tree, NetworkPath(l.fact.network), Single(l.fileName, l.fact.metadata)), listings + [l])
  {
    var path, value := NetworkPath(l.fact.network), Single(l.fileName, l.fact.metadata);
    InsertLookup(tree, path, value, AddressPath(0));
    forall a: u32
      ensures Lookup(Insert(tree, path, value), AddressPath(a)) == Scan(listings + [l], a)
    {
      InsertLookup(tree, path, value, AddressPath(a));
      ContainsIsPrefix(l.fact.network, a);
      ScanExtends(listings, l, a);
    }
  }

  // ----- the writer -----

  /** `mmdb_writer::Writer`. Which networks it refuses is the library's affair. */
  class Writer {
    const refuses: Network -> bool
    var tree: Tree

    constructor (refuses: Network -> bool)
      ensures this.refuses == refuses && Indexes(tree, [])
    {
      this.refuses := refuses;
      tree := Leaf(None);
    }

    method InsertWith(network: Network, value: Record) returns (ok: bool)
      modifies this
      ensures ok == !refuses(network)
      ensures tree == if ok then Insert(old(tree), NetworkPath(network), value) else old(tree)
    {
      ok := !refuses(network);
      if ok {
        tree := Insert(tree, NetworkPath(network), value);
      }
    }
  }

  /** A refused insertion: the position of the first refused listing. */
  ghost predicate FirstRefused(refuses: Network -> bool, listings: seq<Listing>, k: nat) {
    && k < |listings| && refuses(listings[k].fact.network)
    && forall i :: 0 <= i < k ==> !refuses(listings[i].fact.network)
  }

  ghost predicate NoneRefused(refuses: Network -> bool, listings: seq<Listing>) {
    forall l <- listings :: !refuses(l.fact.network)
  }

  /** The innermost loop of `write_mmdb`: one section. Returns the position of a refused network. */
  method InsertSection(writer: Writer, fileName: string, section: I.Section, ghost before: seq<Listing>)
    returns (refused: Option<nat>)
    requires Indexes(writer.tree, before) && NoneRefused(writer.refuses, before)
    modifies writer
    ensures
      var here := SectionListings(fileName, section);
      match refused
      case None => Indexes(writer.tree, before + here) && NoneRefused(writer.refuses, before + here)
      case Some(k) => k < |here| && FirstRefused(writer.refuses, before + here, |before| + k)
  {
    ghost var here := SectionListings(fileName, section);
    var value := Single(fileName, section.metadata);
    assert before + here[..0] == before;
    for k := 0 to |section.networks|
      invariant Indexes(writer.tree, before + here[..k]) && NoneRefused(writer.refuses, before + here[..k])
    {
      InsertIndexes(writer.tree, before + here[..k], here[k]);
      assert before + here[..k + 1] == before + here[..k] + [here[k]];
      var ok := writer.InsertWith(section.networks[k], value);
      if !ok {
        forall i | 0 <= i < |before| + k ensures !writer.refuses((before + here)[i].fact.network) {
          assert (before + here)[i] == (before + here[..k])[i];
        }
        return Some(k);
      }
    }
    assert here[..|here|] == here;
    return None;
  }

  /** The loops of `write_mmdb` over files and sections. */
  method BuildTree(refuses: Network -> bool, ipsets: seq<I.Ipset>) returns (r: Result<Tree, Listing>)
    ensures
      match r
      case Ok(tree) => NoneRefused(refuses, Listings(ipsets)) && Indexes(tree, Listings(ipsets))
      case Err(l) => exists k: nat :: FirstRefused(refuses, Listings(ipsets), k) && Listings(ipsets)[k] == l
  {
    var writer := new Writer(refuses);
    for i := 0 to |ipsets|
      invariant writer.refuses == refuses
      invariant Indexes(writer.tree, Listings(ipsets[..i])) && NoneRefused(refuses, Listings(ipsets[..i]))
    {
      var ipset := ipsets[i];
      ghost var files := Listings(ipsets[..i]);
      assert files + FileListings(ipset.fileName, ipset.sections[..0]) == files;
      for j := 0 to |ipset.sections|
        invariant writer.refuses == refuses
        invariant
          var done := files + FileListings(ipset.fileName, ipset.sections[..j]);
          Indexes(writer.tree, done) && NoneRefused(refuses, done)
      {
        var section := ipset.sections[j];
        ghost var before := files + FileListings(ipset.fileName, ipset.sections[..j]);
        var refused := InsertSection(writer, ipset.fileName, section, before);
        if refused.Some? {
          InOrder(ipsets, i, j);
          PrefixRefused(
            refuses, before + SectionListings(ipset.fileName, section), Listings(ipsets), |before| + refused.value);
          return Err(Listing(ipset.fileName, I.Fact(section.metadata, section.networks[refused.value])));
        }
        SectionDone(files, ipset, j);
      }
      FileDone(ipsets, i);
    }
    assert ipsets[..|ipsets|] == ipsets;
    return Ok(writer.tree);
  }

  lemma PrefixRefused(refuses: Network -> bool, part: seq<Listing>, all: seq<Listing>, k: nat)
    requires part <= all && FirstRefused(refuses, part, k)
    ensures FirstRefused(refuses, all, k) && all[k] == part[k]
  {
    assert forall i :: 0 <= i < |part| ==> part[i] == all[i];
  }

  lemma SectionDone(files: seq<Listing>, ipset: I.Ipset, j: nat)
    requires j < |ipset.sections|
    ensures
      files + FileListings(ipset.fileName, ipset.sections[..j + 1]) ==
      files + FileListings(ipset.fileName, ipset.sections[..j]) +
      SectionListings(ipset.fileName, ipset.sections[j])
  {
    assert ipset.sections[..j + 1][..j] == ipset.sections[..j];
  }

  lemma FileDone(ipsets: seq<I.Ipset>, i: nat)
    requires i < |ipsets|
    ensures
      var ipset := ipsets[i];
      && Listings(ipsets[..i + 1]) == Listings(ipsets[..i]) + FileListings(ipset.fileName, ipset.sections)
      && ipset.sections[..|ipset.sections|] == ipset.sections
  {
    assert ipsets[..i + 1][..i] == ipsets[..i];
  }

  /** What the loops have inserted so far begins the list of all listings. */
  lemma InOrder(ipsets: seq<I.Ipset>, i: nat, j: nat)
    requires i < |ipsets| && j < |ipsets[i].sections|
    ensures
      var ipset := ipsets[i];
      var before := Listings(ipsets[..i]) + FileListings(ipset.fileName, ipset.sections[..j]);
      var here := SectionListings(ipset.fileName, ipset.sections[j]);
      before + here <= Listings(ipsets)
  {
    var ipset := ipsets[i];
    FileListingsGrow(ipset.fileName, ipset.sections, j + 1);
    SectionDone(Listings(ipsets[..i]), ipset, j);
    FileDone(ipsets, i);
    ListingsGrow(ipsets, i + 1);
  }

  lemma {:induction false} FileListingsGrow(fileName: string, sections: seq<I.Section>, j: nat)
    requires j <= |sections|
    ensures FileListings(fileName, sections[..j]) <= FileListings(fileName, sections)
  {
    if j == |sections| {
      assert sections[..j] == sections;
    } else {
      var n := |sections| - 1;
      FileListingsGrow(fileName, sections[..n], j);
      assert sections[..n][..j] == sections[..j];
    }
  }

  lemma {:induction false} ListingsGrow(ipsets: seq<I.Ipset>, i: nat)
    requires i <= |ipsets|
    ensures Listings(ipsets[..i]) <= Listings(ipsets)
  {
    if i == |ipsets| {
      assert ipsets[..i] == ipsets;
    } else {
      var n := |ipsets| - 1;
      ListingsGrow(ipsets[..n], i);
      assert ipsets[..n][..i] == ipsets[..i];
    }
  }
}
