/** The agent's decision (src/spoa.rs, with `Mmdb::lookup` of src/mmdb.rs). */
module Spoa {
  import opened Bits
  import opened Wrappers
  import opened Ipv4
  import opened Builder

  const UNKNOWN := "unknown"

  datatype Ip = V4(address: u32) | V6(bits: nat)

  /** The `ip` argument of a message, by its SPOE type. */
  datatype Argument = TypedV4(v4: u32) | TypedV6(v6: nat) | TypedText(text: string) | OtherType

  /** The `check-client-ip` message of a request, if any, and its `ip` argument, if any. */
  datatype Request = NoMessage | Message(ip: Option<Argument>)

  datatype Reason = ByCategory | ByFileName

  datatype Match = Match(index: nat, reason: Reason)

  /** Labels of the counter of blocked requests. */
  datatype Label = Label(fileName: string, maintainer: string, category: string)

  /** `Iterator::position`: index of the first value in `wanted`, or the length. */
  function Position(values: seq<string>, wanted: set<string>): (i: nat)
    ensures i <= |values|
    ensures forall j :: 0 <= j < i ==> values[j] !in wanted
    ensures i < |values| ==> values[i] in wanted
  {
    if values == [] || values[0] in wanted then 0 else 1 + Position(values[1..], wanted)
  }

  /** A category match takes precedence over a file-name match; the first hit wins. */
  function FindMatch(entry: Record, categories: set<string>, fileNames: set<string>): Option<Match> {
    var c := Position(entry.category, categories);
    if c < |entry.category| then Some(Match(c, ByCategory))
    else
      var f := Position(entry.fileName, fileNames);
      if f < |entry.fileName| then Some(Match(f, ByFileName)) else None
  }

  function Field(values: seq<string>, index: nat): string {
    if index < |values| then values[index] else UNKNOWN
  }

  function LabelOf(entry: Record, hit: Match): Label {
    Label(Field(entry.fileName, hit.index), Field(entry.maintainer, hit.index), Field(entry.category, hit.index))
  }

  /** `Mmdb::lookup`: nothing without a database, and nothing for IPv6, which the database does not hold. */
  function LookupIp(database: Option<Tree>, ip: Ip): Option<Record>
    requires database.Some? ==> Fits(database.value, 32)
  {
    if database.Some? && ip.V4? then Lookup(database.value, AddressPath(ip.address)) else None
  }

  function Decide(database: Option<Tree>, ip: Ip, categories: set<string>, fileNames: set<string>): Option<Match>
    requires database.Some? ==> Fits(database.value, 32)
  {
    match LookupIp(database, ip)
    case Some(entry) => FindMatch(entry, categories, fileNames)
    case None => None
  }

  // ----- what condemns an address -----

  /** The listing's file or the category in force in it is dropped. */
  ghost predicate Dropped(l: Listing, categories: set<string>, fileNames: set<string>) {
    l.fact.metadata.category in categories || l.fileName in fileNames
  }

  /** A dropped listing that contains the address. */
  ghost predicate Condemning(l: Listing, a: u32, categories: set<string>, fileNames: set<string>) {
    Contains(l.fact.network, a) && Dropped(l, categories, fileNames)
  }

  ghost predicate Condemned(ls: seq<Listing>, a: u32, categories: set<string>, fileNames: set<string>) {
    exists l :: l in ls && Condemning(l, a, categories, fileNames)
  }

  /** What the counter of blocked requests went up by: one label, that of a listing that condemns the address. */
  ghost predicate Blamed(
    ls: seq<Listing>, a: u32, categories: set<string>, fileNames: set<string>,
    before: multiset<Label>, after: multiset<Label>)
  {
    exists l ::
      && l in ls && Condemning(l, a, categories, fileNames)
      && after == before + multiset{Label(l.fileName, l.fact.metadata.maintainer, l.fact.metadata.category)}
  }

  /**
   * The answer about an IPv4 address: drop iff a listing condemns it, whichever listings the database
   * indexes; without a database never.
   */
  ghost predicate Judges(
    database: Option<Tree>, a: u32, categories: set<string>, fileNames: set<string>,
    before: multiset<Label>, after: multiset<Label>, drop: bool)
  {
    && (database.None? ==> !drop)
    && (!drop ==> after == before)
    && forall ls :: database.Some? && Indexes(database.value, ls) ==>
         && (drop <==> Condemned(ls, a, categories, fileNames))
         && (drop ==> Blamed(ls, a, categories, fileNames, before, after))
  }

  /** The address a request asks about; `parse` is the standard library's address parser. */
  function Subject(request: Request, parse: string -> Option<Ip>): Option<Ip> {
    match request
    case Message(Some(TypedV4(a))) => Some(V4(a))
    case Message(Some(TypedV6(b))) => Some(V6(b))
    case Message(Some(TypedText(raw))) => parse(raw)
    case _ => None
  }

  class IpFilter {
    const categories: set<string>
    const fileNames: set<string>
    var database: Option<Tree>
    var allowed: nat
    var blocked: multiset<Label>

    ghost predicate Valid()
      reads this
    {
      database.Some? ==> Fits(database.value, 32)
    }

    constructor (database: Option<Tree>, categories: set<string>, fileNames: set<string>)
      requires database.Some? ==> Fits(database.value, 32)
      ensures Valid() && this.database == database
      ensures this.categories == categories && this.fileNames == fileNames
      ensures allowed == 0 && blocked == multiset{}
    {
      this.database, this.categories, this.fileNames := database, categories, fileNames;
      allowed, blocked := 0, multiset{};
    }

    method ShouldDrop(ip: Ip) returns (drop: bool)
      requires Valid()
      modifies this`blocked
      ensures drop == Decide(database, ip, categories, fileNames).Some?
      ensures
        blocked == old(blocked) +
        (if drop then
           multiset{LabelOf(LookupIp(database, ip).value, Decide(database, ip, categories, fileNames).value)}
         else multiset{})
      ensures
        match ip
        case V4(a) => Judges(database, a, categories, fileNames, old(blocked), blocked, drop)
        case V6(_) => !drop && blocked == old(blocked)
    {
      if ip.V4? {
        DecideJudges(database, ip.address, categories, fileNames, blocked);
      }
      hide Judges;
      var found := LookupIp(database, ip);
      match found {
        case Some(entry) =>
          var hit := FindMatch(entry, categories, fileNames);
          if hit.Some? {
            RecordBlock(entry, hit.value);
          }
          drop := hit.Some?;
        case None =>
          drop := false;
      }
    }

    method RecordBlock(entry: Record, hit: Match)
      modifies this`blocked
      ensures blocked == old(blocked) + multiset{LabelOf(entry, hit)}
      ensures
        var i := hit.index;
        blocked == old(blocked) + multiset{
          Label(if i < |entry.fileName| then entry.fileName[i] else "unknown",
                if i < |entry.maintainer| then entry.maintainer[i] else "unknown",
                if i < |entry.category| then entry.category[i] else "unknown")}
    {
      blocked := blocked + multiset{
        Label(Field(entry.fileName, hit.index), Field(entry.maintainer, hit.index), Field(entry.category, hit.index))
      };
    }

    /**
     * Sets `ip_bad` iff the request carries a readable address. Every answer is counted once: as
     * allowed, or as blocked by one list. Addresses are answered by the lists; IPv6 is let through.
     */
    method Handle(request: Request, parse: string -> Option<Ip>) returns (ipBad: Option<bool>)
      requires Valid()
      modifies this`allowed, this`blocked
      ensures
        match request
        case Message(Some(TypedV4(a))) =>
          ipBad.Some? && Judges(database, a, categories, fileNames, old(blocked), blocked, ipBad.value)
        case Message(Some(TypedV6(_))) => ipBad == Some(false)
        case Message(Some(TypedText(text))) =>
          (match parse(text)
           case Some(V4(a)) =>
             ipBad.Some? && Judges(database, a, categories, fileNames, old(blocked), blocked, ipBad.value)
           case Some(V6(_)) => ipBad == Some(false)
           case None => ipBad == None)
        case _ => ipBad == None
      ensures ipBad == None ==> allowed == old(allowed) && blocked == old(blocked)
      ensures
        match Subject(request, parse)
        case None => ipBad == None && allowed == old(allowed) && blocked == old(blocked)
        case Some(ip) => ipBad == Some(Decide(database, ip, categories, fileNames).Some?)
      ensures ipBad == Some(false) ==> allowed == old(allowed) + 1 && blocked == old(blocked)
      ensures ipBad == Some(true) ==>
        var ip := Subject(request, parse).value;
        var culprit := LabelOf(LookupIp(database, ip).value, Decide(database, ip, categories, fileNames).value);
        allowed == old(allowed) && blocked == old(blocked) + multiset{culprit}
    {
      hide Judges, Decide, LookupIp;
      if request.NoMessage? {
        return None;
      }
      var ip: Ip;
      match request.ip {
        case Some(TypedV4(a)) => ip := V4(a);
        case Some(TypedV6(b)) => ip := V6(b);
        case Some(TypedText(raw)) =>
          var parsed := parse(raw);
          if parsed.None? {
            return None;
          }
          ip := parsed.value;
        case _ =>
          return None;
      }
      var drop := ShouldDrop(ip);
      if !drop {
        allowed := allowed + 1;
      }
      return Some(drop);
    }
  }

  // ----- the decision on records -----

  /** Some list of the record is dropped, by its category or by its file name. */
  ghost predicate Blocks(entry: Record, categories: set<string>, fileNames: set<string>) {
    || (exists c :: c in entry.category && c in categories)
    || (exists f :: f in entry.fileName && f in fileNames)
  }

  lemma FindMatchMeaning(entry: Record, categories: set<string>, fileNames: set<string>)
    ensures
      match FindMatch(entry, categories, fileNames)
      case None => !Blocks(entry, categories, fileNames)
      case Some(Match(i, ByCategory)) =>
        && i < |entry.category| && entry.category[i] in categories
        && forall j :: 0 <= j < i ==> entry.category[j] !in categories
      case Some(Match(i, ByFileName)) =>
        && i < |entry.fileName| && entry.fileName[i] in fileNames
        && (forall c <- entry.category :: c !in categories)
        && forall j :: 0 <= j < i ==> entry.fileName[j] !in fileNames
    ensures FindMatch(entry, categories, fileNames).Some? <==> Blocks(entry, categories, fileNames)
  {}

  /**
   * On a record made of list lines the block is attributed to one line that is really at fault, and
   * the fallback label never appears.
   */
  lemma LabelNamesCulprit(ls: seq<Listing>, categories: set<string>, fileNames: set<string>)
    requires FindMatch(RecordOf(ls), categories, fileNames).Some?
    ensures
      var hit := FindMatch(RecordOf(ls), categories, fileNames).value;
      && hit.index < |ls|
      && var l := ls[hit.index];
      && LabelOf(RecordOf(ls), hit) == Label(l.fileName, l.fact.metadata.maintainer, l.fact.metadata.category)
      && (l.fact.metadata.category in categories || l.fileName in fileNames)
  {}

  /** A scanned record blocks iff one of the listings behind it is dropped. */
  lemma BlocksIffListing(ls: seq<Listing>, categories: set<string>, fileNames: set<string>)
    ensures
      Blocks(RecordOf(ls), categories, fileNames) <==>
      exists l :: l in ls && Dropped(l, categories, fileNames)
  {
    var r := RecordOf(ls);
    forall l | l in ls && Dropped(l, categories, fileNames) ensures Blocks(r, categories, fileNames) {
      var i :| 0 <= i < |ls| && ls[i] == l;
      assert r.category[i] in r.category && r.fileName[i] in r.fileName;
    }
    if Blocks(r, categories, fileNames) {
      var i :| 0 <= i < |ls| && (r.category[i] in categories || r.fileName[i] in fileNames);
      assert ls[i] in ls && Dropped(ls[i], categories, fileNames);
    }
  }

  lemma {:induction false} InCovering(ls: seq<Listing>, a: u32, l: Listing)
    ensures l in Covering(ls, a) <==> l in ls && Contains(l.fact.network, a)
  {
    if ls != [] { InCovering(ls[..|ls| - 1], a, l); }
  }

  /** On a database that indexes `ls` the decision is whether one of them condemns the address. */
  lemma DecideMeaning(tree: Tree, ls: seq<Listing>, a: u32, categories: set<string>, fileNames: set<string>)
    requires Indexes(tree, ls)
    ensures Decide(Some(tree), V4(a), categories, fileNames).Some? <==> Condemned(ls, a, categories, fileNames)
  {
    var covering := Covering(ls, a);
    assert Lookup(tree, AddressPath(a)) == Scan(ls, a);
    FindMatchMeaning(RecordOf(covering), categories, fileNames);
    BlocksIffListing(covering, categories, fileNames);
    forall l ensures l in covering <==> l in ls && Contains(l.fact.network, a) {
      InCovering(ls, a, l);
    }
  }

  lemma DecideBlames(
    tree: Tree, ls: seq<Listing>, a: u32, categories: set<string>, fileNames: set<string>, before: multiset<Label>)
    requires Indexes(tree, ls) && Decide(Some(tree), V4(a), categories, fileNames).Some?
    ensures
      var culprit := LabelOf(LookupIp(Some(tree), V4(a)).value, Decide(Some(tree), V4(a), categories, fileNames).value);
      Blamed(ls, a, categories, fileNames, before, before + multiset{culprit})
  {
    var covering := Covering(ls, a);
    assert Lookup(tree, AddressPath(a)) == Scan(ls, a);
    LabelNamesCulprit(covering, categories, fileNames);
    var l := covering[Decide(Some(tree), V4(a), categories, fileNames).value.index];
    assert l in covering;
    InCovering(ls, a, l);
    assert Condemning(l, a, categories, fileNames);
  }

  lemma DecideJudges(
    database: Option<Tree>, a: u32, categories: set<string>, fileNames: set<string>, before: multiset<Label>)
    requires database.Some? ==> Fits(database.value, 32)
    ensures
      var hit := Decide(database, V4(a), categories, fileNames);
      var after :=
        before + if hit.Some? then multiset{LabelOf(LookupIp(database, V4(a)).value, hit.value)} else multiset{};
      Judges(database, a, categories, fileNames, before, after, hit.Some?)
  {
    hide LookupIp, LabelOf, Condemned, Blamed, Indexes;
    NoDatabase(a, categories, fileNames);
    assert before + multiset{} == before;
    forall ls | database.Some? && Indexes(database.value, ls)
      ensures Decide(database, V4(a), categories, fileNames).Some? <==> Condemned(ls, a, categories, fileNames)
    {
      DecideMeaning(database.value, ls, a, categories, fileNames);
    }
    forall ls |
      database.Some? && Indexes(database.value, ls) && Decide(database, V4(a), categories, fileNames).Some?
      ensures
        var culprit :=
          LabelOf(LookupIp(database, V4(a)).value, Decide(database, V4(a), categories, fileNames).value);
        Blamed(ls, a, categories, fileNames, before, before + multiset{culprit})
    {
      DecideBlames(database.value, ls, a, categories, fileNames, before);
    }
  }

  lemma NoDatabase(a: u32, categories: set<string>, fileNames: set<string>)
    ensures Decide(None, V4(a), categories, fileNames) == None
  {}
}
