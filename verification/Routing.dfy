/** The router: candidates to addresses, filtered and merged into at most one delivery per address. */
module Routing {
  import opened Base
  import opened Text
  import opened Addresses
  import opened Preferences
  import opened Events
  import Identities
  import Outbox
  import opened DeliveryKeys

  type Identity = Identities.Identity

  /** Everything a routing decision reads, at one moment. */
  datatype World = World(
    syntax: Syntax,
    identities: Identities.Rows,
    preferences: Preferences.Rows,
    pipelines: map<string, Outbox.PipelineState>,
    domains: set<string>,
    policy: Policy,
    now: int)

  ghost function Resolved(w: World, i: Identity): Identity {
    Identities.ResolveOne(w.syntax, w.identities, i)
  }

  /** The address a resolved identity is written to, when its domain is allowed. */
  ghost function AddressFor(w: World, resolved: Identity): Option<string> {
    match EmailAddress(w.syntax, resolved.email)
    case Some(address) => if DomainAllowed(w.domains, address) then Some(address) else None
    case None => None
  }

  /** The resolved identity reaches the address for this candidate: no one is told of their own act
      unless the reason says so. */
  ghost predicate Reaches(w: World, actor: Identity, item: Candidate, resolved: Identity, address: string) {
    AddressFor(w, resolved) == Some(address) && (item.allowSelf || !SameIdentity(actor, resolved))
  }

  function EnabledCodes(w: World, item: Candidate, address: string, project: string): set<string> {
    set code | code in item.reasons && Enabled(w.syntax, w.preferences, w.now, address, code, project)
  }

  // What the loops compute, for any choice of candidates

  /** What one handled candidate adds: an address and the reasons it wants to hear. */
  datatype Hit = Hit(address: string, codes: set<string>)

  ghost function HitFor(w: World, e: Event, item: Candidate, resolved: Identity): Option<Hit> {
    match AddressFor(w, resolved)
    case None => None
    case Some(address) =>
      if item.allowSelf || !SameIdentity(e.actor, resolved) then Some(Hit(address, EnabledCodes(w, item, address, e.projectPath)))
      else None
  }

  ghost function HitOf(w: World, e: Event, items: Candidates): (string, string) -> Option<Hit> {
    (k, k') => if k in items && k' in items then HitFor(w, e, items[k'], Resolved(w, items[k].identity)) else None
  }

  /** pick says which candidate each resolved identity was taken for. */
  ghost function Hits(hit: (string, string) -> Option<Hit>, pick: map<string, string>): map<string, Hit> {
    map k | k in pick && hit(k, pick[k]).Some? :: hit(k, pick[k]).value
  }

  ghost predicate Addressed(hits: map<string, Hit>, address: string) {
    exists k | k in hits :: hits[k].address == address
  }

  ghost function CodesFor(hits: map<string, Hit>, address: string): set<string> {
    set k, code | k in hits && hits[k].address == address && code in hits[k].codes :: code
  }

  /** One entry per address, with the reasons of all its hits. */
  ghost predicate Merged(hits: map<string, Hit>, resolved: map<string, set<string>>) {
    && (forall a :: a in resolved <==> Addressed(hits, a))
    && (forall a | a in resolved :: resolved[a] == CodesFor(hits, a))
  }

  /** k was matched to the candidate under its resolved key, or else to one that is the same person. */
  ghost predicate Matched(w: World, items: Candidates, k: string, k': string)
    requires k in items
  {
    var key := CandidateKey(Resolved(w, items[k].identity));
    if key in items then k' == key
    else k' in items && SameIdentity(items[k'].identity, Resolved(w, items[k].identity))
  }

  /** The resolved identity of k has an address and is matched to k'. */
  ghost function Taken(w: World, items: Candidates): (string, string) -> bool {
    (k, k') => k in items && AddressFor(w, Resolved(w, items[k].identity)).Some? && Matched(w, items, k, k')
  }

  /** pick takes a match for every candidate handled so far that has one. */
  ghost predicate Picks(taken: (string, string) -> bool, done: set<string>, pick: map<string, string>) {
    && pick.Keys <= done
    && (forall k | k in pick :: taken(k, pick[k]))
    && (forall k, k' | k in done && k !in pick :: !taken(k, k'))
  }

  /** The keys marked as handled are the keys after resolution. */
  ghost function Marked(w: World, items: Candidates, pick: map<string, string>): set<string>
    requires pick.Keys <= items.Keys
  {
    set k | k in pick :: CandidateKey(Resolved(w, items[k].identity))
  }

  ghost predicate Unresolved(w: World, items: Candidates, pick: map<string, string>, k: string)
    requires pick.Keys <= items.Keys
  {
    k in items && k !in Marked(w, items, pick) && EmailAddress(w.syntax, items[k].identity.email).None?
  }

  // What the router promises

  /** Resolving keeps every candidate under its own key. */
  ghost predicate KeysPreserved(w: World, items: Candidates) {
    forall k {:trigger KeyKept(w, items, k)} | k in items :: KeyKept(w, items, k)
  }

  ghost predicate KeyKept(w: World, items: Candidates, k: string)
    requires k in items
  {
    CandidateKey(Resolved(w, items[k].identity)) == k
  }

  ghost predicate ReachedBy(w: World, e: Event, items: Candidates, k: string, address: string) {
    k in items && Reaches(w, e.actor, items[k], Resolved(w, items[k].identity), address)
  }

  /** The reasons an address is told: every enabled reason of every candidate that reaches it. */
  ghost function ReasonsAt(w: World, e: Event, items: Candidates, address: string): set<string> {
    set k, code | k in items && ReachedBy(w, e, items, k, address) && code in EnabledCodes(w, items[k], address, e.projectPath) :: code
  }

  /** Exactly when resolving changes the key of an identity: an id or username without a provider that
      is found in the table, or an email-only identity whose usable email was not trimmed. */
  ghost predicate KeyShifts(w: World, i: Identity) {
    var email := UsableEmail(w.syntax, i.email);
    if email != "" then i.id == "" && i.username == "" && Lower(i.email) != email
    else i.provider == ""
         && (|| (i.id != "" && Identities.LookupId(w.identities, Identities.GITLAB, i.id).Some?)
             || (i.id == "" && i.username != "" && Identities.LookupUsername(w.identities, Identities.GITLAB, Lower(i.username)).Some?))
  }

  lemma PrefixDiffers(a: string, b: string, x: string, y: string)
    requires |a| != |b|
    ensures a + x != b + x && (x != y ==> a + x != a + y)
  {
    assert |a + x| != |b + x|;
    assert (a + x)[|a|..] == x && (a + y)[|a|..] == y;
  }

  lemma KeyPreservedExactly(w: World, i: Identity)
    ensures CandidateKey(Resolved(w, i)) == CandidateKey(i) <==> !KeyShifts(w, i)
  {
    var email := UsableEmail(w.syntax, i.email);
    if email != "" {
      UsableIsStable(w.syntax, i.email);
      PrefixDiffers("email:", "", email, Lower(i.email));
    } else if i.id != "" {
      PrefixDiffers("id:gitlab:", "id::", i.id, i.id);
      assert "id:" + "" + ":" + i.id == "id::" + i.id && "id:" + "gitlab" + ":" + i.id == "id:gitlab:" + i.id;
    } else if i.username != "" {
      var u := Lower(i.username);
      LowerIdempotent(i.username);
      PrefixDiffers("username:gitlab:", "username::", u, u);
      assert "username:" + "" + ":" + u == "username::" + u && "username:" + "gitlab" + ":" + u == "username:gitlab:" + u;
    }
  }

  /** The candidates that can be matched at all. */
  ghost function WithAddress(w: World, items: Candidates): set<string> {
    set k | k in items && AddressFor(w, Resolved(w, items[k].identity)).Some?
  }

  lemma MatchedToThemselves(w: World, items: Candidates, k: string, k': string)
    requires KeysPreserved(w, items)
    ensures Taken(w, items)(k, k') <==> k in WithAddress(w, items) && k' == k
  {
    if k in items {
      assert KeyKept(w, items, k);
      assert Matched(w, items, k, k') <==> k' == k;
    }
  }

  lemma PickOfIdentity(taken: (string, string) -> bool, wanted: set<string>, done: set<string>, pick: map<string, string>)
    requires forall k, k' :: taken(k, k') <==> k in wanted && k' == k
    requires Picks(taken, done, pick) && wanted <= done
    ensures pick == map k | k in wanted :: k
  {
    assert forall k | k in wanted :: taken(k, k);
  }

  lemma MarkedThemselves(w: World, items: Candidates, pick: map<string, string>)
    requires KeysPreserved(w, items) && pick.Keys <= items.Keys
    ensures Marked(w, items, pick) == pick.Keys
  {
    assert forall k | k in pick :: KeyKept(w, items, k);
  }

  /** With keys preserved the fallback search is never needed: everyone is matched to themselves. */
  lemma PreservedPick(w: World, items: Candidates, pick: map<string, string>)
    requires KeysPreserved(w, items) && Picks(Taken(w, items), items.Keys, pick)
    ensures pick == map k | k in WithAddress(w, items) :: k
    ensures Marked(w, items, pick) == WithAddress(w, items)
  {
    var taken, wanted := Taken(w, items), WithAddress(w, items);
    forall k, k' ensures taken(k, k') <==> k in wanted && k' == k {
      MatchedToThemselves(w, items, k, k');
    }
    PickOfIdentity(taken, wanted, items.Keys, pick);
    MarkedThemselves(w, items, pick);
  }

  // Without anyone taken for someone else

  /** No resolved identity is taken for another candidate. */
  ghost predicate EachForItself(w: World, items: Candidates) {
    forall k, k' :: Taken(w, items)(k, k') ==> k' == k
  }

  /** The candidates that are matched to themselves. */
  ghost function Owners(w: World, items: Candidates): set<string> {
    set k | k in items && Taken(w, items)(k, k)
  }

  lemma OwnersPick(w: World, items: Candidates, pick: map<string, string>)
    requires EachForItself(w, items) && Picks(Taken(w, items), items.Keys, pick)
    ensures pick == map k | k in Owners(w, items) :: k
  {
    var taken, wanted := Taken(w, items), Owners(w, items);
    forall k, k' ensures taken(k, k') <==> k in wanted && k' == k {
    }
    PickOfIdentity(taken, wanted, items.Keys, pick);
  }

  lemma OwnersPreserved(w: World, items: Candidates)
    requires KeysPreserved(w, items)
    ensures EachForItself(w, items) && Owners(w, items) == WithAddress(w, items)
  {
    forall k, k' ensures Taken(w, items)(k, k') <==> k in WithAddress(w, items) && k' == k {
      MatchedToThemselves(w, items, k, k');
    }
  }

  ghost predicate OwnReached(w: World, e: Event, items: Candidates, k: string, address: string) {
    k in Owners(w, items) && ReachedBy(w, e, items, k, address)
  }

  /** The reasons an address is told when no one is taken for someone else: every enabled reason of every
      candidate that is matched to itself and reaches it. */
  ghost function OwnReasonsAt(w: World, e: Event, items: Candidates, address: string): set<string> {
    set k, code | k in items && OwnReached(w, e, items, k, address) && code in EnabledCodes(w, items[k], address, e.projectPath) :: code
  }

  lemma HitReaches(w: World, e: Event, items: Candidates, k: string, address: string)
    ensures var hits := Hits(HitOf(w, e, items), map j | j in Owners(w, items) :: j);
            && (k in hits && hits[k].address == address <==> OwnReached(w, e, items, k, address))
            && (k in hits && hits[k].address == address ==> hits[k].codes == EnabledCodes(w, items[k], address, e.projectPath))
  {}

  lemma UnionsAgree(hits: map<string, Hit>, address: string, reached: string -> bool, codes: string -> set<string>)
    requires forall k :: reached(k) <==> k in hits && hits[k].address == address
    requires forall k | reached(k) :: hits[k].codes == codes(k)
    ensures forall code :: code in CodesFor(hits, address) <==> exists k :: reached(k) && code in codes(k)
  {
    forall code | code in CodesFor(hits, address) ensures exists k :: reached(k) && code in codes(k) {
      var k :| k in hits && hits[k].address == address && code in hits[k].codes;
      assert reached(k);
    }
  }

  /** Refinement: whatever order the maps are walked in, an address is told exactly the enabled reasons
      of the candidates that reach it. */
  lemma LoopsComputeReasons(w: World, e: Event, items: Candidates, pick: map<string, string>, address: string)
    requires EachForItself(w, items) && Picks(Taken(w, items), items.Keys, pick)
    ensures CodesFor(Hits(HitOf(w, e, items), pick), address) == OwnReasonsAt(w, e, items, address)
  {
    OwnersPick(w, items, pick);
    HitsComputeReasons(w, e, items, address);
  }

  lemma HitsComputeReasons(w: World, e: Event, items: Candidates, address: string)
    ensures CodesFor(Hits(HitOf(w, e, items), map j | j in Owners(w, items) :: j), address) == OwnReasonsAt(w, e, items, address)
  {
    var hits := Hits(HitOf(w, e, items), map j | j in Owners(w, items) :: j);
    var reached := (k: string) => OwnReached(w, e, items, k, address);
    var codes := (k: string) => if k in items then EnabledCodes(w, items[k], address, e.projectPath) else {};
    forall k ensures reached(k) <==> k in hits && hits[k].address == address
             ensures reached(k) ==> hits[k].codes == codes(k)
    {
      HitReaches(w, e, items, k, address);
    }
    UnionsAgree(hits, address, reached, codes);
    assert forall k :: reached(k) <==> OwnReached(w, e, items, k, address);
    forall code ensures code in OwnReasonsAt(w, e, items, address) <==> exists k :: reached(k) && code in codes(k) {
    }
  }

  lemma OwnReasonsPreserved(w: World, e: Event, items: Candidates, address: string)
    requires KeysPreserved(w, items)
    ensures OwnReasonsAt(w, e, items, address) == ReasonsAt(w, e, items, address)
  {
    OwnersPreserved(w, items);
    forall k | ReachedBy(w, e, items, k, address) ensures k in Owners(w, items) {
    }
  }

  // Where each candidate ends

  lemma KeyOfEmail(i: Identity, text: string)
    requires CandidateKey(i) == "email:" + text
    ensures i.id == "" && i.username == "" && Lower(i.email) == text
  {
    var key := CandidateKey(i);
    assert key[0] == 'e';
    assert key[6..] == text;
  }

  lemma MappedHasKey(w: World, i: Identity)
    requires UsableEmail(w.syntax, i.email) == "" && (i.id != "" || i.username != "")
    ensures Resolved(w, i).id != "" || Resolved(w, i).username != ""
  {
    if i.id != "" {
      var found := Identities.LookupId(w.identities, Identities.ProviderOf(i), i.id);
      assert found.Some? ==> found.value.providerId == i.id;
    } else {
      var found := Identities.LookupUsername(w.identities, Identities.ProviderOf(i), Lower(i.username));
      assert found.Some? ==> found.value.username == Lower(i.username);
      assert |Lower(i.username)| > 0;
    }
  }

  /** What resolves to an address and nothing else has it in its own normalised e-mail. */
  lemma EmailOnlyResult(w: World, i: Identity)
    requires Resolved(w, i).id == "" && Resolved(w, i).username == "" && AddressFor(w, Resolved(w, i)).Some?
    ensures Lower(Resolved(w, i).email) == Resolved(w, i).email == UsableEmail(w.syntax, i.email) != ""
  {
    UsableIsStable(w.syntax, i.email);
    if UsableEmail(w.syntax, i.email) == "" && (i.id != "" || i.username != "") {
      MappedHasKey(w, i);
    }
  }

  /** An e-mail alone, usable and within the domains, that was not trimmed. */
  ghost predicate Untrimmed(w: World, i: Identity) {
    var u := UsableEmail(w.syntax, i.email);
    i.id == "" && i.username == "" && u != "" && Lower(i.email) != u && DomainAllowed(w.domains, u)
  }

  /** Whoever resolves under the key of an e-mail alone shows that this e-mail is trimmed and usable. */
  lemma SharedKeyTrimmed(w: World, i: Identity, j: Identity)
    requires i.id == "" && i.username == "" && CandidateKey(Resolved(w, j)) == CandidateKey(i)
    requires AddressFor(w, Resolved(w, j)).Some?
    ensures Lower(i.email) == UsableEmail(w.syntax, i.email)
  {
    KeyOfEmail(Resolved(w, j), Lower(i.email));
    EmailOnlyResult(w, j);
    UsableIsStable(w.syntax, j.email);
    NormalOfLower(i.email);
  }

  lemma NobodyMarks(w: World, items: Candidates, pick: map<string, string>, k: string)
    requires Picks(Taken(w, items), items.Keys, pick) && k in items && CandidateKey(items[k].identity) == k
    requires Untrimmed(w, items[k].identity)
    ensures k !in Marked(w, items, pick)
  {
    var i := items[k].identity;
    forall j | j in pick ensures CandidateKey(Resolved(w, items[j].identity)) != k {
      assert Taken(w, items)(j, pick[j]);
      var r := Resolved(w, items[j].identity);
      if CandidateKey(r) == k {
        SharedKeyTrimmed(w, i, items[j].identity);
      }
    }
  }

  lemma AddressedIsMarked(w: World, items: Candidates, pick: map<string, string>, k: string)
    requires Picks(Taken(w, items), items.Keys, pick) && k in items && CandidateKey(Resolved(w, items[k].identity)) == k
    requires AddressFor(w, Resolved(w, items[k].identity)).Some?
    ensures k in Marked(w, items, pick)
  {
    assert Matched(w, items, k, k);
    assert Taken(w, items)(k, k);
  }

  ghost predicate Outside(w: World, i: Identity) {
    var own := EmailAddress(w.syntax, i.email);
    own.Some? && !DomainAllowed(w.domains, own.value)
  }

  /** No candidate disappears: each one is handled, reported unresolved, or has a usable address of its
      own outside the domains, exactly unless it is an e-mail alone that was not trimmed. */
  lemma CandidatesConserved(w: World, items: Candidates, pick: map<string, string>, k: string)
    requires Picks(Taken(w, items), items.Keys, pick) && k in items && CandidateKey(items[k].identity) == k
    ensures k in Marked(w, items, pick) || Unresolved(w, items, pick, k) || Outside(w, items[k].identity)
            <==> !Untrimmed(w, items[k].identity)
    ensures !(Unresolved(w, items, pick, k) && (k in Marked(w, items, pick) || Outside(w, items[k].identity)))
  {
    var i := items[k].identity;
    var u := UsableEmail(w.syntax, i.email);
    UsableIsStable(w.syntax, i.email);
    if Untrimmed(w, i) {
      NobodyMarks(w, items, pick, k);
    } else if u != "" && DomainAllowed(w.domains, u) {
      AddressedIsMarked(w, items, pick, k);
    }
  }

  /** With keys preserved it is never two of these at once. */
  lemma ConservedOnce(w: World, items: Candidates, pick: map<string, string>, k: string)
    requires KeysPreserved(w, items) && Picks(Taken(w, items), items.Keys, pick) && k in items
    ensures !(k in Marked(w, items, pick) && Outside(w, items[k].identity))
  {
    PreservedPick(w, items, pick);
    UsableIsStable(w.syntax, items[k].identity.email);
  }

  // One step of the matching loop

  lemma HitsNext(of: (string, string) -> Option<Hit>, pick: map<string, string>, k: string, k': string)
    requires k !in pick
    ensures k !in Hits(of, pick)
    ensures Hits(of, pick[k := k']) == if of(k, k').Some? then Hits(of, pick)[k := of(k, k').value] else Hits(of, pick)
  {
    assert forall j :: j in pick[k := k'] <==> j in pick || j == k;
  }

  lemma PicksNext(taken: (string, string) -> bool, done: set<string>, pick: map<string, string>, k: string, k': string)
    requires Picks(taken, done, pick) && k !in done && taken(k, k')
    ensures Picks(taken, done + {k}, pick[k := k'])
  {}

  lemma MarkedNext(w: World, items: Candidates, pick: map<string, string>, k: string, k': string)
    requires pick.Keys <= items.Keys && k in items && k !in pick
    ensures pick[k := k'].Keys <= items.Keys
    ensures Marked(w, items, pick[k := k']) == Marked(w, items, pick) + {CandidateKey(Resolved(w, items[k].identity))}
  {
    assert forall j :: j in pick[k := k'] <==> j in pick || j == k;
  }

  lemma MergedNext(hits: map<string, Hit>, k: string, hit: Hit, resolved: map<string, set<string>>, resolved': map<string, set<string>>)
    requires k !in hits && Merged(hits, resolved)
    requires resolved' == resolved[hit.address := (if hit.address in resolved then resolved[hit.address] else {}) + hit.codes]
    ensures Merged(hits[k := hit], resolved')
  {
    var hits' := hits[k := hit];
    assert forall j :: j in hits' <==> j in hits || j == k;
    assert hits'[k] == hit;
    assert forall j | j in hits :: hits'[j] == hits[j];
    forall a ensures Addressed(hits', a) <==> Addressed(hits, a) || a == hit.address {
    }
    forall a ensures CodesFor(hits', a) == CodesFor(hits, a) + if a == hit.address then hit.codes else {} {
    }
    if hit.address !in resolved {
      assert CodesFor(hits, hit.address) == {};
    }
  }

  /** Where the matching loop stands: pick, the merged map and the handled keys after some identities. */
  ghost predicate Progress(w: World, e: Event, items: Candidates, done: set<string>, pick: map<string, string>,
                           resolved: map<string, set<string>>, marked: set<string>)
  {
    && pick.Keys <= items.Keys
    && Picks(Taken(w, items), done, pick)
    && Merged(Hits(HitOf(w, e, items), pick), resolved)
    && marked == Marked(w, items, pick)
  }

  lemma Begins(w: World, e: Event, items: Candidates)
    ensures forall keys :: Progress(w, e, items, FirstOf(keys, 0), map[], map[], {})
  {}

  lemma Skips(w: World, e: Event, items: Candidates, done: set<string>, pick: map<string, string>, k: string,
              resolved: map<string, set<string>>, marked: set<string>)
    requires Progress(w, e, items, done, pick, resolved, marked)
    requires forall k' :: !Taken(w, items)(k, k')
    ensures Progress(w, e, items, done + {k}, pick, resolved, marked)
  {}

  /** What the search for a candidate found. */
  ghost predicate Finds(items: Candidates, identity: Identity, found: Option<string>) {
    match found
    case Some(k) =>
      k in items && if CandidateKey(identity) in items then k == CandidateKey(identity) else SameIdentity(items[k].identity, identity)
    case None => CandidateKey(identity) !in items && forall k | k in items :: !SameIdentity(items[k].identity, identity)
  }

  lemma FindsMatch(w: World, items: Candidates, k: string, identity: Identity, found: Option<string>)
    requires k in items && identity == Resolved(w, items[k].identity) && Finds(items, identity, found)
    ensures found.Some? && AddressFor(w, identity).Some? ==> Taken(w, items)(k, found.value)
    ensures found.None? || AddressFor(w, identity).None? ==> forall k' :: !Taken(w, items)(k, k')
  {
    if found.Some? {
      assert Matched(w, items, k, found.value);
    } else {
      assert forall k' :: !Matched(w, items, k, k');
    }
  }

  lemma HitFound(w: World, e: Event, items: Candidates, k: string, k': string, identity: Identity, address: string)
    requires k in items && k' in items && identity == Resolved(w, items[k].identity) && AddressFor(w, identity) == Some(address)
    ensures HitOf(w, e, items)(k, k') ==
              if items[k'].allowSelf || !SameIdentity(e.actor, identity)
              then Some(Hit(address, EnabledCodes(w, items[k'], address, e.projectPath))) else None
  {}

  lemma Takes(w: World, e: Event, items: Candidates, done: set<string>, pick: map<string, string>, k: string, k': string,
              resolved: map<string, set<string>>, marked: set<string>, resolved': map<string, set<string>>)
    requires Progress(w, e, items, done, pick, resolved, marked) && k in items && k !in done
    requires Taken(w, items)(k, k')
    requires match HitOf(w, e, items)(k, k')
             case None => resolved' == resolved
             case Some(hit) =>
               resolved' == resolved[hit.address := (if hit.address in resolved then resolved[hit.address] else {}) + hit.codes]
    ensures Progress(w, e, items, done + {k}, pick[k := k'], resolved',
                     marked + {CandidateKey(Resolved(w, items[k].identity))})
  {
    var of := HitOf(w, e, items);
    PicksNext(Taken(w, items), done, pick, k, k');
    HitsNext(of, pick, k, k');
    MarkedNext(w, items, pick, k, k');
    if of(k, k').Some? {
      MergedNext(Hits(of, pick), k, of(k, k').value, resolved, resolved');
    }
  }

  // The notices

  datatype Notice = Notice(key: string, address: string, codes: set<string>)

  datatype RouteResult = RouteResult(notices: seq<Notice>, update: Option<Outbox.PipelineUpdate>, unresolved: seq<Identity>)

  datatype RouteError = NoEventKey | IgnoredEvent

  function Recipients(notices: seq<Notice>): seq<string> {
    seq(|notices|, i requires 0 <= i < |notices| => notices[i].address)
  }

  function Deliveries(notices: seq<Notice>): seq<Outbox.Delivery> {
    seq(|notices|, i requires 0 <= i < |notices| => Outbox.Delivery(notices[i].key, notices[i].address))
  }

  /** At most one notice per address. */
  ghost predicate Apart(notices: seq<Notice>) {
    forall i, j | 0 <= i < j < |notices| :: notices[i].address != notices[j].address
  }

  ghost predicate Told(notices: seq<Notice>, address: string, codes: set<string>) {
    exists n | n in notices :: n.address == address && n.codes == codes
  }

  /** One notice, under its own key, for every allowed address that has a reason left. */
  ghost predicate Notifies(syntax: Syntax, policy: Policy, e: Event, resolved: map<string, set<string>>, notices: seq<Notice>) {
    && Apart(notices)
    && (forall n | n in notices :: n.key == DeliveryKey(e, n.address, n.codes))
    && (forall a, c :: Told(notices, a, c) <==> a in resolved && c == resolved[a] != {} && a != "" && Allows(syntax, policy, a))
  }

  /** The outcome of routing, when the candidates are matched as pick says. */
  ghost predicate RoutesBy(w: World, e: Event, pick: map<string, string>, notices: seq<Notice>) {
    var items := AddAll(map[], Asks(e, w.pipelines));
    && Apart(notices)
    && (forall n | n in notices :: n.key == DeliveryKey(e, n.address, n.codes))
    && Picks(Taken(w, items), items.Keys, pick)
    && forall a, c :: Told(notices, a, c) <==> c == CodesFor(Hits(HitOf(w, e, items), pick), a) != {} && Allows(w.syntax, w.policy, a)
  }

  /** The outcome of routing, for some way of walking the maps. */
  ghost predicate Routes(w: World, e: Event, notices: seq<Notice>) {
    exists pick :: RoutesBy(w, e, pick, notices)
  }

  /** The people reported unresolved. */
  ghost predicate Reports(w: World, items: Candidates, pick: map<string, string>, unresolved: seq<Identity>)
    requires pick.Keys <= items.Keys
  {
    forall i :: i in unresolved <==> exists k :: Unresolved(w, items, pick, k) && items[k].identity == i
  }

  function UpdateFor(e: Event, notices: seq<Notice>): Option<Outbox.PipelineUpdate> {
    if e.kind == PipelineEvent && e.pipeline.Some? && e.pipeline.value.status in {"failed", "success"} then
      Some(Outbox.PipelineUpdate(CorrelationKey(e), Outbox.PipelineState(e.pipeline.value.status, Recipients(notices))))
    else None
  }

  lemma ToldSnoc(notices: seq<Notice>, n: Notice)
    ensures forall a, c :: Told(notices + [n], a, c) <==> Told(notices, a, c) || (a == n.address && c == n.codes)
  {
    var all := notices + [n];
    assert forall m :: m in all <==> m in notices || m == n;
    assert n in all;
    forall a, c | Told(notices, a, c) ensures Told(all, a, c) {
      var m :| m in notices && m.address == a && m.codes == c;
      assert m in all;
    }
  }

  lemma NotifiesNext(syntax: Syntax, policy: Policy, e: Event, resolved: map<string, set<string>>, notices: seq<Notice>, address: string, codes: set<string>)
    requires Notifies(syntax, policy, e, resolved, notices) && address !in resolved
    ensures var n := Notice(DeliveryKey(e, address, codes), address, codes);
            Notifies(syntax, policy, e, resolved[address := codes],
                     if codes == {} || address == "" || !Allows(syntax, policy, address) then notices else notices + [n])
  {
    var n := Notice(DeliveryKey(e, address, codes), address, codes);
    ToldSnoc(notices, n);
    forall m | m in notices ensures m.address != address {
      assert Told(notices, m.address, m.codes);
    }
  }

  lemma HitAddress(w: World, e: Event, items: Candidates, pick: map<string, string>, k: string)
    requires k in Hits(HitOf(w, e, items), pick)
    ensures Hits(HitOf(w, e, items), pick)[k].address != ""
    ensures k in pick && pick[k] in items && Hits(HitOf(w, e, items), pick)[k].codes <= items[pick[k]].reasons
  {}

  lemma AddressedHasName(w: World, e: Event, items: Candidates, pick: map<string, string>, address: string)
    requires Addressed(Hits(HitOf(w, e, items), pick), address)
    ensures address != ""
  {
    var k :| k in Hits(HitOf(w, e, items), pick) && Hits(HitOf(w, e, items), pick)[k].address == address;
    HitAddress(w, e, items, pick, k);
  }

  lemma MergedCodes(hits: map<string, Hit>, resolved: map<string, set<string>>, a: string, c: set<string>)
    requires Merged(hits, resolved)
    ensures a in resolved && c == resolved[a] != {} <==> c == CodesFor(hits, a) != {}
    ensures a in resolved <==> Addressed(hits, a)
  {
    if CodesFor(hits, a) != {} {
      var code :| code in CodesFor(hits, a);
      assert Addressed(hits, a);
    }
  }

  lemma NotifiesRoutes(w: World, e: Event, items: Candidates, pick: map<string, string>, resolved: map<string, set<string>>, notices: seq<Notice>)
    requires items == AddAll(map[], Asks(e, w.pipelines)) && Picks(Taken(w, items), items.Keys, pick)
    requires Merged(Hits(HitOf(w, e, items), pick), resolved) && Notifies(w.syntax, w.policy, e, resolved, notices)
    ensures RoutesBy(w, e, pick, notices)
  {
    var hits := Hits(HitOf(w, e, items), pick);
    forall a, c ensures Told(notices, a, c) <==> c == CodesFor(hits, a) != {} && Allows(w.syntax, w.policy, a) {
      MergedCodes(hits, resolved, a, c);
      if Addressed(hits, a) {
        AddressedHasName(w, e, items, pick, a);
      }
    }
  }

  /** Only the reasons asked for are told. */
  lemma ToldWasAsked(w: World, e: Event, notices: seq<Notice>, n: Notice, code: string)
    requires Routes(w, e, notices) && n in notices && code in n.codes
    ensures exists ask | ask in Asks(e, w.pipelines) :: ask.code == code
  {
    var asks := Asks(e, w.pipelines);
    var items := AddAll(map[], asks);
    var pick :| RoutesBy(w, e, pick, notices);
    assert Told(notices, n.address, n.codes);
    var hits := Hits(HitOf(w, e, items), pick);
    var k :| k in hits && hits[k].address == n.address && code in hits[k].codes;
    HitAddress(w, e, items, pick, k);
    AddAllGathers(asks);
    assert GathersKey(items[pick[k]], asks, pick[k]);
    assert code in CodesUnder(asks, pick[k]);
  }

  lemma ToldCodes(w: World, e: Event, notices: seq<Notice>)
    requires Routes(w, e, notices)
    ensures forall n | n in notices :: n.codes != {} && n.codes <= CODES
  {
    AsksCodes(e, w.pipelines);
    forall n | n in notices ensures n.codes != {} && n.codes <= CODES {
      assert Told(notices, n.address, n.codes);
      forall code | code in n.codes ensures code in CODES {
        ToldWasAsked(w, e, notices, n, code);
      }
    }
  }

  /** A failed pipeline is told under one reason only. */
  lemma FailureCodes(w: World, e: Event, notices: seq<Notice>)
    requires Routes(w, e, notices) && e.kind == PipelineEvent && e.pipeline.Some? && e.pipeline.value.status == "failed"
    ensures forall n | n in notices :: n.codes == {CI_FAILED}
  {
    ToldCodes(w, e, notices);
    forall n | n in notices ensures n.codes == {CI_FAILED} {
      forall code | code in n.codes ensures code == CI_FAILED {
        ToldWasAsked(w, e, notices, n, code);
      }
      var code :| code in n.codes;
      assert code == CI_FAILED;
    }
  }

  // What the router promises about its outcome

  /** The candidates an event asks for. */
  ghost function CandidatesOf(w: World, e: Event): Candidates {
    AddAll(map[], Asks(e, w.pipelines))
  }

  /** No one the event names loses their key by resolving: none is a provider-less id or username that
      the table knows, nor an e-mail alone that was not trimmed. */
  ghost predicate Enriched(w: World, e: Event) {
    forall ask | Tells(e, w.pipelines, ask) && Counts(ask) :: !KeyShifts(w, Named(ask))
  }

  lemma EnrichedKeepsKeys(w: World, e: Event)
    requires Enriched(w, e)
    ensures KeysPreserved(w, CandidatesOf(w, e))
  {
    var asks, items := Asks(e, w.pipelines), CandidatesOf(w, e);
    AddAllGathers(asks);
    AsksExactly(e, w.pipelines);
    forall k | k in items ensures KeyKept(w, items, k) {
      assert GathersKey(items[k], asks, k);
      var ask :| ask in asks && Under(ask, k) && items[k].identity == Named(ask);
      assert Tells(e, w.pipelines, ask);
      KeyPreservedExactly(w, Named(ask));
    }
  }

  /** Every candidate of an event stands under its own key. */
  lemma OwnKeys(w: World, e: Event, k: string)
    requires k in CandidatesOf(w, e)
    ensures CandidateKey(CandidatesOf(w, e)[k].identity) == k
  {
    AddAllGathers(Asks(e, w.pipelines));
    assert GathersKey(CandidatesOf(w, e)[k], Asks(e, w.pipelines), k);
  }

  /** Refinement, for every event in which no one is taken for someone else: there is one notice for each
      allowed address with a reason, and it carries exactly the enabled reasons of the candidates that are
      matched to themselves and reach the address. */
  lemma RouteRefinesOwners(w: World, e: Event, notices: seq<Notice>)
    requires Routes(w, e, notices) && EachForItself(w, CandidatesOf(w, e))
    ensures Apart(notices)
    ensures forall a, c :: Told(notices, a, c) <==> c == OwnReasonsAt(w, e, CandidatesOf(w, e), a) != {} && Allows(w.syntax, w.policy, a)
  {
    var items := CandidatesOf(w, e);
    var pick :| RoutesBy(w, e, pick, notices);
    forall a ensures CodesFor(Hits(HitOf(w, e, items), pick), a) == OwnReasonsAt(w, e, items, a) {
      LoopsComputeReasons(w, e, items, pick, a);
    }
  }

  /** In particular, when everyone keeps their key, it carries exactly the enabled reasons of the candidates
      that reach the address. */
  lemma RouteRefines(w: World, e: Event, notices: seq<Notice>)
    requires Routes(w, e, notices) && Enriched(w, e)
    ensures Apart(notices)
    ensures forall a, c :: Told(notices, a, c) <==> c == ReasonsAt(w, e, CandidatesOf(w, e), a) != {} && Allows(w.syntax, w.policy, a)
  {
    EnrichedKeepsKeys(w, e);
    OwnersPreserved(w, CandidatesOf(w, e));
    RouteRefinesOwners(w, e, notices);
    forall a ensures OwnReasonsAt(w, e, CandidatesOf(w, e), a) == ReasonsAt(w, e, CandidatesOf(w, e), a) {
      OwnReasonsPreserved(w, e, CandidatesOf(w, e), a);
    }
  }

  ghost predicate ToldOf(notices: seq<Notice>, address: string, code: string) {
    exists n | n in notices :: n.address == address && code in n.codes
  }

  /** The candidate that stands for someone the event tells under this reason reaches the address. */
  ghost predicate SomeoneReached(w: World, e: Event, address: string, code: string) {
    exists ask :: Tells(e, w.pipelines, ask) && Counts(ask) && ask.code == code
                  && ReachedBy(w, e, CandidatesOf(w, e), CandidateKey(Named(ask)), address)
  }

  ghost predicate Hears(w: World, e: Event, address: string, code: string) {
    && Allows(w.syntax, w.policy, address)
    && Enabled(w.syntax, w.preferences, w.now, address, code, e.projectPath)
    && SomeoneReached(w, e, address, code)
  }

  /** The same in terms of the event: an address hears a reason exactly when it may receive anything,
      wants that reason, and the candidate that stands for someone the event tells under that reason
      reaches it. */
  lemma ToldExactly(w: World, e: Event, notices: seq<Notice>, address: string, code: string)
    requires Routes(w, e, notices) && Enriched(w, e)
    ensures ToldOf(notices, address, code) <==> Hears(w, e, address, code)
  {
    var items := CandidatesOf(w, e);
    RouteRefines(w, e, notices);
    AddAllGathers(Asks(e, w.pipelines));
    AsksExactly(e, w.pipelines);
    ToldReasons(notices, address, code, ReasonsAt(w, e, items, address), Allows(w.syntax, w.policy, address));
    ReasonsByAsks(w, e, Asks(e, w.pipelines), items, address, code);
  }

  lemma ToldReasons(notices: seq<Notice>, address: string, code: string, reasons: set<string>, allowed: bool)
    requires forall c :: Told(notices, address, c) <==> c == reasons != {} && allowed
    ensures ToldOf(notices, address, code) <==> code in reasons && allowed
  {
    if ToldOf(notices, address, code) {
      var n :| n in notices && n.address == address && code in n.codes;
      assert Told(notices, address, n.codes);
    }
    if code in reasons && allowed {
      assert Told(notices, address, reasons);
    }
  }

  lemma ReasonsByAsks(w: World, e: Event, asks: seq<Ask>, items: Candidates, address: string, code: string)
    requires Gathers(items, asks)
    ensures code in ReasonsAt(w, e, items, address) <==>
              && Enabled(w.syntax, w.preferences, w.now, address, code, e.projectPath)
              && exists ask | ask in asks ::
                   Counts(ask) && ask.code == code && ReachedBy(w, e, items, CandidateKey(Named(ask)), address)
  {
    if code in ReasonsAt(w, e, items, address) {
      var k :| k in items && ReachedBy(w, e, items, k, address) && code in EnabledCodes(w, items[k], address, e.projectPath);
      assert GathersKey(items[k], asks, k);
      var ask :| ask in asks && Under(ask, k) && ask.code == code;
    }
    if Enabled(w.syntax, w.preferences, w.now, address, code, e.projectPath) {
      forall ask | ask in asks && Counts(ask) && ask.code == code && ReachedBy(w, e, items, CandidateKey(Named(ask)), address)
        ensures code in ReasonsAt(w, e, items, address)
      {
        var k := CandidateKey(Named(ask));
        assert GathersKey(items[k], asks, k);
        assert Under(ask, k);
        assert code in EnabledCodes(w, items[k], address, e.projectPath);
      }
    }
  }

  // Who is reached

  /** A resolved identity is written to its own e-mail, normalised, when that is well-formed, no placeholder,
      and within the domains. */
  lemma AddressForExactly(w: World, resolved: Identity, address: string)
    ensures AddressFor(w, resolved) == Some(address) <==>
              && address == Normal(resolved.email) && address != "" && '@' in address && w.syntax(address)
              && address != "[redacted]" && NoReplyFree(address) && DomainAllowed(w.domains, address)
  {
    UsableExactly(w.syntax, resolved.email);
    UsableIsStable(w.syntax, resolved.email);
  }

  /** Nobody is told of their own act unless the reason says so: with two ids of one provider the ids decide
      who acted. */
  lemma ActorById(w: World, e: Event, items: Candidates, k: string, address: string)
    requires k in items && Resolved(w, items[k].identity).provider == e.actor.provider
    requires Resolved(w, items[k].identity).id != "" && e.actor.id != ""
    ensures ReachedBy(w, e, items, k, address) <==>
              var r := Resolved(w, items[k].identity);
              AddressFor(w, r) == Some(address) && (items[k].allowSelf || r.id != e.actor.id)
  {}

  /** Without two such ids the e-mails decide, in any letter case. */
  lemma ActorByEmail(w: World, e: Event, items: Candidates, k: string, address: string)
    requires k in items && e.actor.email != ""
    requires var r := Resolved(w, items[k].identity); r.provider != e.actor.provider || r.id == "" || e.actor.id == ""
    ensures ReachedBy(w, e, items, k, address) <==>
              var r := Resolved(w, items[k].identity);
              AddressFor(w, r) == Some(address) && (items[k].allowSelf || Lower(r.email) != Lower(e.actor.email))
  {
    if Resolved(w, items[k].identity).email == "" {
      assert Normal("") == "";
    }
  }

  /** And when the actor has no e-mail either, the usernames of one provider, in any letter case. */
  lemma ActorByUsername(w: World, e: Event, items: Candidates, k: string, address: string)
    requires k in items && e.actor.email == ""
    requires var r := Resolved(w, items[k].identity); r.provider != e.actor.provider || r.id == "" || e.actor.id == ""
    ensures ReachedBy(w, e, items, k, address) <==>
              var r := Resolved(w, items[k].identity);
              && AddressFor(w, r) == Some(address)
              && (items[k].allowSelf
                  || r.provider != e.actor.provider || r.username == "" || e.actor.username == ""
                  || Lower(r.username) != Lower(e.actor.username))
  {}

  /** Nothing is ever sent to a placeholder. */
  lemma NeverToPlaceholders(w: World, e: Event, notices: seq<Notice>, n: Notice)
    requires Routes(w, e, notices) && n in notices
    ensures n.address != "[redacted]" && NoReplyFree(n.address) && '@' in n.address && w.syntax(n.address)
  {
    ToldAddress(w, e, notices, n);
    UsableExactly(w.syntax, n.address);
  }

  // Mentions

  /** A mention as the decoder leaves it: a username, and no provider. */
  predicate Bare(i: Identity) {
    i.provider == "" && i.id == "" && i.email == "" && i.username != ""
  }

  /** Everyone named is a GitLab user or a bare username, as the decoder leaves them. */
  ghost predicate AsDecoded(w: World, e: Event) {
    forall ask | Tells(e, w.pipelines, ask) && Counts(ask) ::
      ask.Person? && (Bare(ask.identity) || ask.identity.provider == Identities.GITLAB)
  }

  lemma AddressedIsGitLab(w: World, i: Identity)
    requires Bare(i) || i.provider == Identities.GITLAB
    requires AddressFor(w, Resolved(w, i)).Some?
    ensures Resolved(w, i).provider == Identities.GITLAB
  {
    assert Normal("") == "";
  }

  /** A bare username and a GitLab user never share a key. */
  lemma BareKeyIsOwn(bare: Identity, i: Identity)
    requires Bare(bare) && i.provider == Identities.GITLAB
    ensures CandidateKey(i) != CandidateKey(bare)
  {
    var own, key := CandidateKey(bare), CandidateKey(i);
    assert own[0] == 'u' && own[9] == ':';
    if i.id != "" {
      assert key[0] == 'i';
    } else if i.username != "" {
      assert key[9] == 'g';
    } else {
      assert key[0] == 'e';
    }
  }

  /** Nothing that has an address is taken for a bare mention. */
  lemma NeverTakenForBare(w: World, items: Candidates, k: string, k': string)
    requires k in items && k' in items && CandidateKey(items[k'].identity) == k'
    requires Bare(items[k].identity) || items[k].identity.provider == Identities.GITLAB
    requires Bare(items[k'].identity)
    ensures !Taken(w, items)(k, k')
  {
    if AddressFor(w, Resolved(w, items[k].identity)).Some? {
      AddressedIsGitLab(w, items[k].identity);
      BareKeyIsOwn(items[k'].identity, Resolved(w, items[k].identity));
      assert !SameIdentity(items[k'].identity, Resolved(w, items[k].identity));
    }
  }

  /** The candidates of an event as decoded are as decoded, and the one that stands for someone is bare
      exactly when they are. */
  lemma CandidateAsDecoded(w: World, e: Event, k: string)
    requires AsDecoded(w, e) && k in CandidatesOf(w, e)
    ensures Bare(CandidatesOf(w, e)[k].identity) || CandidatesOf(w, e)[k].identity.provider == Identities.GITLAB
    ensures exists own :: Tells(e, w.pipelines, own) && Counts(own) && CandidatesOf(w, e)[k].identity == Named(own)
    ensures forall ask | Tells(e, w.pipelines, ask) && Under(ask, k) :: ask.Person? && (Bare(ask.identity) <==> Bare(CandidatesOf(w, e)[k].identity))
  {
    var asks, items := Asks(e, w.pipelines), CandidatesOf(w, e);
    AddAllGathers(asks);
    AsksExactly(e, w.pipelines);
    assert GathersKey(items[k], asks, k);
    var own :| own in asks && Under(own, k) && items[k].identity == Named(own);
    assert Tells(e, w.pipelines, own);
    forall ask | Tells(e, w.pipelines, ask) && Under(ask, k)
      ensures ask.Person? && (Bare(ask.identity) <==> Bare(items[k].identity))
    {
      if Bare(ask.identity) && own.identity.provider == Identities.GITLAB {
        BareKeyIsOwn(ask.identity, own.identity);
      } else if Bare(own.identity) && ask.identity.provider == Identities.GITLAB {
        BareKeyIsOwn(own.identity, ask.identity);
      }
    }
  }

  // Any event, whoever else is in it

  /** A resolved identity that can only be taken for one candidate brings that candidate's reasons to its
      own address, whatever the other candidates are. */
  lemma OnlyMatchIsHeard(w: World, e: Event, notices: seq<Notice>, k: string, k': string, hit: Hit, code: string)
    requires Routes(w, e, notices) && k in CandidatesOf(w, e)
    requires forall j :: Taken(w, CandidatesOf(w, e))(k, j) <==> j == k'
    requires HitOf(w, e, CandidatesOf(w, e))(k, k') == Some(hit) && code in hit.codes && Allows(w.syntax, w.policy, hit.address)
    ensures ToldOf(notices, hit.address, code)
  {
    var pick :| RoutesBy(w, e, pick, notices);
    PickedIsHeard(HitOf(w, e, CandidatesOf(w, e)), Taken(w, CandidatesOf(w, e)), CandidatesOf(w, e).Keys, pick, k, k', hit, code);
    CodesAreTold(w, e, pick, notices, hit.address, code);
  }

  lemma CodesAreTold(w: World, e: Event, pick: map<string, string>, notices: seq<Notice>, address: string, code: string)
    requires RoutesBy(w, e, pick, notices) && Allows(w.syntax, w.policy, address)
    requires code in CodesFor(Hits(HitOf(w, e, CandidatesOf(w, e)), pick), address)
    ensures ToldOf(notices, address, code)
  {
    assert Told(notices, address, CodesFor(Hits(HitOf(w, e, CandidatesOf(w, e)), pick), address));
  }

  lemma PickedIsHeard(of: (string, string) -> Option<Hit>, taken: (string, string) -> bool, done: set<string>, pick: map<string, string>,
                      k: string, k': string, hit: Hit, code: string)
    requires Picks(taken, done, pick) && k in done && forall j :: taken(k, j) <==> j == k'
    requires of(k, k') == Some(hit) && code in hit.codes
    ensures code in CodesFor(Hits(of, pick), hit.address)
  {
    assert taken(k, k');
    assert k in pick && pick[k] == k';
    assert k in Hits(of, pick) && Hits(of, pick)[k] == hit;
  }

  /** A candidate that keeps its key is heard at every allowed address it reaches, whoever else the event
      names. */
  lemma KeptIsHeard(w: World, e: Event, notices: seq<Notice>, k: string, address: string, code: string)
    requires Routes(w, e, notices) && k in CandidatesOf(w, e) && KeyKept(w, CandidatesOf(w, e), k)
    requires ReachedBy(w, e, CandidatesOf(w, e), k, address) && code in EnabledCodes(w, CandidatesOf(w, e)[k], address, e.projectPath)
    requires Allows(w.syntax, w.policy, address)
    ensures ToldOf(notices, address, code)
  {
    KeptIsOnlyMatch(w, CandidatesOf(w, e), k);
    OnlyMatchIsHeard(w, e, notices, k, k, HitOf(w, e, CandidatesOf(w, e))(k, k).value, code);
  }

  lemma KeptIsOnlyMatch(w: World, items: Candidates, k: string)
    requires k in items && KeyKept(w, items, k)
    ensures forall j :: Taken(w, items)(k, j) <==> j == k && AddressFor(w, Resolved(w, items[k].identity)).Some?
  {
    assert forall j :: Matched(w, items, k, j) <==> j == k;
  }

  /** The resolved identity of k is taken for the candidate that stands for the ask, and that brings the
      reason to the address. */
  ghost predicate Brings(w: World, e: Event, k: string, ask: Ask, address: string, code: string) {
    var items, key := CandidatesOf(w, e), CandidateKey(Named(ask));
    && Tells(e, w.pipelines, ask) && Counts(ask) && ask.code == code && k in items && key in items && Taken(w, items)(k, key)
    && HitOf(w, e, items)(k, key).Some? && HitOf(w, e, items)(k, key).value.address == address
    && code in HitOf(w, e, items)(k, key).value.codes
  }

  /** Whatever is heard was asked for under that reason, and someone was taken for the candidate that stands
      for it. */
  lemma HeardWasAsked(w: World, e: Event, notices: seq<Notice>, address: string, code: string) returns (k: string, ask: Ask)
    requires Routes(w, e, notices) && ToldOf(notices, address, code)
    ensures Brings(w, e, k, ask, address, code) && Allows(w.syntax, w.policy, address)
  {
    var key;
    k, key := HeardWasTaken(w, e, notices, address, code);
    ask := ReasonWasAsked(w, e, key, code);
  }

  lemma HeardWasTaken(w: World, e: Event, notices: seq<Notice>, address: string, code: string) returns (k: string, key: string)
    requires Routes(w, e, notices) && ToldOf(notices, address, code)
    ensures k in CandidatesOf(w, e) && key in CandidatesOf(w, e) && Taken(w, CandidatesOf(w, e))(k, key) && Allows(w.syntax, w.policy, address)
    ensures var hit := HitOf(w, e, CandidatesOf(w, e))(k, key); hit.Some? && hit.value.address == address && code in hit.value.codes
    ensures code in CandidatesOf(w, e)[key].reasons
  {
    var items := CandidatesOf(w, e);
    var pick :| RoutesBy(w, e, pick, notices);
    var n :| n in notices && n.address == address && code in n.codes;
    assert Told(notices, address, n.codes);
    var hits := Hits(HitOf(w, e, items), pick);
    k :| k in hits && hits[k].address == address && code in hits[k].codes;
    key := pick[k];
    HitAddress(w, e, items, pick, k);
  }

  /** Every reason of a candidate was asked for, under its key. */
  lemma ReasonWasAsked(w: World, e: Event, key: string, code: string) returns (ask: Ask)
    requires key in CandidatesOf(w, e) && code in CandidatesOf(w, e)[key].reasons
    ensures Tells(e, w.pipelines, ask) && Under(ask, key) && ask.code == code
  {
    var asks := Asks(e, w.pipelines);
    AddAllGathers(asks);
    AsksExactly(e, w.pipelines);
    assert GathersKey(CandidatesOf(w, e)[key], asks, key);
    ask :| ask in asks && Under(ask, key) && ask.code == code;
  }

  /** For every event as decoded: whatever is heard was asked for someone who is not bare. */
  lemma HeardIsEnriched(w: World, e: Event, notices: seq<Notice>, address: string, code: string) returns (k: string, ask: Ask)
    requires Routes(w, e, notices) && AsDecoded(w, e) && ToldOf(notices, address, code)
    ensures Brings(w, e, k, ask, address, code) && Allows(w.syntax, w.policy, address)
    ensures ask.Person? && !Bare(ask.identity)
  {
    k, ask := HeardWasAsked(w, e, notices, address, code);
    var key := CandidateKey(Named(ask));
    OwnKeys(w, e, key);
    CandidateAsDecoded(w, e, k);
    CandidateAsDecoded(w, e, key);
    if Bare(CandidatesOf(w, e)[key].identity) {
      NeverTakenForBare(w, CandidatesOf(w, e), k, key);
    }
  }

  /** Mentions that were not enriched are heard by no one, whether the table knows them or not. */
  lemma BareMentionsUnheard(w: World, e: Event, notices: seq<Notice>, address: string)
    requires Routes(w, e, notices) && AsDecoded(w, e)
    requires forall ask | Tells(e, w.pipelines, ask) && Counts(ask) && ask.code == MENTION :: Bare(ask.identity)
    ensures !ToldOf(notices, address, MENTION)
  {
    if ToldOf(notices, address, MENTION) {
      var k, ask := HeardIsEnriched(w, e, notices, address, MENTION);
    }
  }

  /** Some bare username is taken for another candidate. */
  ghost predicate Misdirects(w: World, e: Event) {
    exists k, k' :: k in CandidatesOf(w, e) && Bare(CandidatesOf(w, e)[k].identity) && Taken(w, CandidatesOf(w, e))(k, k')
  }

  /** The e-mails of GitLab users come trimmed from the decoder and the enrichment. */
  ghost predicate Trimmed(w: World, e: Event) {
    forall ask | Tells(e, w.pipelines, ask) && Counts(ask) && ask.Person? :: Lower(ask.identity.email) == Normal(ask.identity.email)
  }

  /** Someone who is not bare, told under this reason, is stood for by a candidate that reaches the address. */
  ghost predicate EnrichedReached(w: World, e: Event, address: string, code: string) {
    exists ask :: Tells(e, w.pipelines, ask) && Counts(ask) && ask.code == code && ask.Person? && !Bare(ask.identity)
                  && ReachedBy(w, e, CandidatesOf(w, e), CandidateKey(Named(ask)), address)
  }

  lemma EnrichedIsKept(w: World, e: Event, k: string)
    requires AsDecoded(w, e) && Trimmed(w, e) && k in CandidatesOf(w, e) && !Bare(CandidatesOf(w, e)[k].identity)
    ensures KeyKept(w, CandidatesOf(w, e), k)
  {
    CandidateAsDecoded(w, e, k);
    OwnKeys(w, e, k);
    var i := CandidatesOf(w, e)[k].identity;
    KeyPreservedExactly(w, i);
    assert Lower(i.email) == Normal(i.email);
  }

  /** For every event as decoded, however its people are mixed: an address hears a reason exactly when it
      may receive anything, wants that reason, and someone who is not bare is told under it and stood for by
      a candidate that reaches the address; unless a bare username is taken for someone else. */
  lemma DecodedToldExactly(w: World, e: Event, notices: seq<Notice>, address: string, code: string)
    requires Routes(w, e, notices) && AsDecoded(w, e) && Trimmed(w, e) && !Misdirects(w, e)
    ensures ToldOf(notices, address, code) <==>
              && Allows(w.syntax, w.policy, address)
              && Enabled(w.syntax, w.preferences, w.now, address, code, e.projectPath)
              && EnrichedReached(w, e, address, code)
  {
    if ToldOf(notices, address, code) {
      var k, ask := HeardIsEnriched(w, e, notices, address, code);
      assert !Bare(CandidatesOf(w, e)[k].identity);
      EnrichedIsKept(w, e, k);
      KeptIsOnlyMatch(w, CandidatesOf(w, e), k);
      assert ReachedBy(w, e, CandidatesOf(w, e), CandidateKey(Named(ask)), address);
    }
    if Allows(w.syntax, w.policy, address) && Enabled(w.syntax, w.preferences, w.now, address, code, e.projectPath) && EnrichedReached(w, e, address, code) {
      var ask :| Tells(e, w.pipelines, ask) && Counts(ask) && ask.code == code && ask.Person? && !Bare(ask.identity)
                 && ReachedBy(w, e, CandidatesOf(w, e), CandidateKey(Named(ask)), address);
      EnrichedIsHeard(w, e, notices, ask, address);
    }
  }

  /** An enriched person is heard, whether or not others in the event are bare or misdirected. */
  lemma EnrichedIsHeard(w: World, e: Event, notices: seq<Notice>, ask: Ask, address: string)
    requires Routes(w, e, notices) && AsDecoded(w, e) && Trimmed(w, e)
    requires Tells(e, w.pipelines, ask) && Counts(ask) && ask.Person? && !Bare(ask.identity)
    requires ReachedBy(w, e, CandidatesOf(w, e), CandidateKey(Named(ask)), address)
    requires Allows(w.syntax, w.policy, address) && Enabled(w.syntax, w.preferences, w.now, address, ask.code, e.projectPath)
    ensures ToldOf(notices, address, ask.code)
  {
    var key := CandidateKey(Named(ask));
    CandidateAsDecoded(w, e, key);
    assert Under(ask, key);
    EnrichedIsKept(w, e, key);
    AddAllGathers(Asks(e, w.pipelines));
    AsksExactly(e, w.pipelines);
    assert GathersKey(CandidatesOf(w, e)[key], Asks(e, w.pipelines), key);
    KeptIsHeard(w, e, notices, key, address, ask.code);
  }

  /** k is a bare username that the table maps to the row, and k' a GitLab user of that name without an
      e-mail, while no candidate stands under the username itself. */
  ghost predicate Mistaken(w: World, items: Candidates, k: string, k': string, row: Identities.Row) {
    && k in items && Bare(items[k].identity)
    && Identities.LookupUsername(w.identities, Identities.GITLAB, Lower(items[k].identity.username)) == Some(row)
    && row.username == Lower(items[k].identity.username)
    && k' in items && items[k'].identity.provider == Identities.GITLAB && items[k'].identity.id != "" && items[k'].identity.email == ""
    && Lower(items[k'].identity.username) == row.username
    && "username:gitlab:" + row.username !in items
  }

  lemma MistakenIsTaken(w: World, e: Event, items: Candidates, k: string, k': string, row: Identities.Row)
    requires Mistaken(w, items, k, k', row)
    requires EmailAddress(w.syntax, row.email).Some? && DomainAllowed(w.domains, EmailAddress(w.syntax, row.email).value)
    ensures Taken(w, items)(k, k')
    ensures items[k'].allowSelf || !SameIdentity(e.actor, Resolved(w, items[k].identity)) ==>
              HitOf(w, e, items)(k, k') ==
                Some(Hit(EmailAddress(w.syntax, row.email).value,
                         EnabledCodes(w, items[k'], EmailAddress(w.syntax, row.email).value, e.projectPath)))
  {
    var r := Resolved(w, items[k].identity);
    assert Normal("") == "";
    LowerIdempotent(items[k].identity.username);
    assert r == Identities.Identity("gitlab", "", row.username, row.email, row.name);
    assert "username:" + "gitlab" + ":" + row.username == "username:gitlab:" + row.username;
    assert CandidateKey(r) == "username:gitlab:" + row.username;
    assert SameIdentity(items[k'].identity, r);
    assert Matched(w, items, k, k');
  }

  /** A bare mention the table knows is not merely dropped: when one other candidate has its username, every
      routing tells the mapped address the reasons that were meant for that person. */
  lemma BareMentionMisdirects(w: World, e: Event, notices: seq<Notice>, k: string, k': string, row: Identities.Row, address: string, code: string)
    requires Routes(w, e, notices) && Mistaken(w, CandidatesOf(w, e), k, k', row)
    requires forall j :: Taken(w, CandidatesOf(w, e))(k, j) ==> j == k'
    requires EmailAddress(w.syntax, row.email) == Some(address) && DomainAllowed(w.domains, address) && Allows(w.syntax, w.policy, address)
    requires CandidatesOf(w, e)[k'].allowSelf || !SameIdentity(e.actor, Resolved(w, CandidatesOf(w, e)[k].identity))
    requires code in EnabledCodes(w, CandidatesOf(w, e)[k'], address, e.projectPath)
    ensures ToldOf(notices, address, code)
  {
    MistakenIsTaken(w, e, CandidatesOf(w, e), k, k', row);
    OnlyMatchIsHeard(w, e, notices, k, k', HitOf(w, e, CandidatesOf(w, e))(k, k').value, code);
  }

  lemma ToldAddress(w: World, e: Event, notices: seq<Notice>, n: Notice)
    requires Routes(w, e, notices) && n in notices
    ensures n.address != "" && Lower(n.address) == n.address && UsableEmail(w.syntax, n.address) == n.address
    ensures DomainAllowed(w.domains, n.address)
  {
    var items := AddAll(map[], Asks(e, w.pipelines));
    var pick :| RoutesBy(w, e, pick, notices);
    assert Told(notices, n.address, n.codes);
    var hits := Hits(HitOf(w, e, items), pick);
    var code :| code in n.codes;
    var k :| k in hits && hits[k].address == n.address && code in hits[k].codes;
    HitUsable(w, e, items, k, pick[k]);
  }

  lemma HitUsable(w: World, e: Event, items: Candidates, k: string, k': string)
    requires HitOf(w, e, items)(k, k').Some?
    ensures var a := HitOf(w, e, items)(k, k').value.address;
            a != "" && Lower(a) == a && UsableEmail(w.syntax, a) == a && DomainAllowed(w.domains, a)
  {
    UsableIsStable(w.syntax, Resolved(w, items[k].identity).email);
  }

  /** One event never uses a delivery key twice. */
  lemma KeysApart(w: World, e: Event, notices: seq<Notice>, i: nat, j: nat)
    requires Routes(w, e, notices) && forall n | n in notices :: ':' !in n.address
    requires i < j < |notices|
    ensures notices[i].key != notices[j].key
  {
    ToldCodes(w, e, notices);
    ToldAddress(w, e, notices, notices[i]);
    ToldAddress(w, e, notices, notices[j]);
    if notices[i].key == notices[j].key {
      KeyDecodes(e, notices[i].address, notices[i].codes, e, notices[j].address, notices[j].codes);
    }
  }

  ghost function FirstOf(keys: seq<string>, n: nat): set<string>
    requires n <= |keys|
  {
    set i | 0 <= i < n :: keys[i]
  }

  lemma FirstOfNext(keys: seq<string>, n: nat)
    requires n < |keys| && NoDuplicates(keys)
    ensures keys[n] !in FirstOf(keys, n) && FirstOf(keys, n + 1) == FirstOf(keys, n) + {keys[n]}
  {}

  lemma FirstOfAll(keys: seq<string>, all: set<string>)
    requires forall k :: k in keys <==> k in all
    ensures FirstOf(keys, |keys|) == all
  {
    assert forall k | k in all :: k in keys;
  }

  class Router {
    const identities: Identities.IdentityStore
    const preferences: PreferenceStore
    const outbox: Outbox.Store
    const domains: set<string>
    const policy: Policy

    constructor (identities: Identities.IdentityStore, preferences: PreferenceStore, outbox: Outbox.Store, domains: seq<string>, policy: Policy)
      ensures this.identities == identities && this.preferences == preferences && this.outbox == outbox && this.policy == policy
      ensures this.domains == set d | d in domains && Normal(d) != "" :: Normal(d)
    {
      this.identities, this.preferences, this.outbox, this.policy := identities, preferences, outbox, policy;
      this.domains := set d | d in domains && Normal(d) != "" :: Normal(d);
    }

    /** What the router sees at the given time. */
    ghost function WorldAt(now: int): World
      reads identities, preferences, outbox
    {
      World(identities.syntax, identities.rows, preferences.rows, outbox.pipelines, domains, policy, now)
    }

    /** The candidates in the order the map happens to be walked. */
    method Order(items: Candidates) returns (keys: seq<string>, people: seq<Identity>)
      ensures NoDuplicates(keys) && (forall k :: k in keys <==> k in items)
      ensures |people| == |keys| && forall i | 0 <= i < |keys| :: people[i] == items[keys[i]].identity
    {
      keys, people := [], [];
      var rest := items.Keys;
      while rest != {}
        invariant rest <= items.Keys && NoDuplicates(keys)
        invariant forall k :: k in keys <==> k in items && k !in rest
        invariant |people| == |keys| && forall i | 0 <= i < |keys| :: people[i] == items[keys[i]].identity
        decreases rest
      {
        var k :| k in rest;
        keys, people := keys + [k], people + [items[k].identity];
        rest := rest - {k};
      }
    }

    /** The candidate an identity is taken for: by key, else the first that is the same person. */
    method Match(items: Candidates, keys: seq<string>, identity: Identity) returns (found: Option<string>)
      requires forall k :: k in keys <==> k in items
      ensures Finds(items, identity, found)
    {
      if CandidateKey(identity) in items {
        return Some(CandidateKey(identity));
      }
      for i := 0 to |keys|
        invariant forall j | 0 <= j < i :: !SameIdentity(items[keys[j]].identity, identity)
      {
        if SameIdentity(items[keys[i]].identity, identity) {
          return Some(keys[i]);
        }
      }
      return None;
    }

    /** The reasons of a candidate that the address wants to hear. */
    method Filter(item: Candidate, address: string, project: string, now: int) returns (codes: set<string>)
      requires preferences.syntax == identities.syntax
      ensures codes == EnabledCodes(WorldAt(now), item, address, project)
    {
      codes := {};
      var rest := item.reasons;
      while rest != {}
        invariant rest <= item.reasons
        invariant codes == set code | code in item.reasons - rest && Enabled(preferences.syntax, preferences.rows, now, address, code, project)
        decreases rest
      {
        var code :| code in rest;
        if Enabled(preferences.syntax, preferences.rows, now, address, code, project) {
          codes := codes + {code};
        }
        rest := rest - {code};
      }
    }

    /** One resolved identity: skip it, or match it, filter its reasons and merge them. */
    method Absorb(items: Candidates, keys: seq<string>, e: Event, now: int, k: string, identity: Identity,
                  resolved: map<string, set<string>>, marked: set<string>, ghost done: set<string>, ghost pick: map<string, string>)
      returns (resolved': map<string, set<string>>, marked': set<string>, ghost pick': map<string, string>)
      requires preferences.syntax == identities.syntax
      requires forall j :: j in keys <==> j in items
      requires k in items && k !in done && identity == Resolved(WorldAt(now), items[k].identity)
      requires Progress(WorldAt(now), e, items, done, pick, resolved, marked)
      ensures Progress(WorldAt(now), e, items, done + {k}, pick', resolved', marked')
    {
      ghost var w := WorldAt(now);
      resolved', marked', pick' := resolved, marked, pick;
      var email := EmailAddress(identities.syntax, identity.email);
      if email.None? || !DomainAllowed(domains, email.value) {
        assert AddressFor(w, identity).None?;
        Skips(w, e, items, done, pick, k, resolved, marked);
        return;
      }
      var address := email.value;
      assert AddressFor(w, identity) == Some(address);
      var found := Match(items, keys, identity);
      FindsMatch(w, items, k, identity, found);
      if found.None? {
        Skips(w, e, items, done, pick, k, resolved, marked);
        return;
      }
      HitFound(w, e, items, k, found.value, identity, address);
      var item := items[found.value];
      pick' := pick[k := found.value];
      marked' := marked + {CandidateKey(identity)};
      if !item.allowSelf && SameIdentity(e.actor, identity) {
        Takes(w, e, items, done, pick, k, found.value, resolved, marked, resolved');
        return;
      }
      var codes := Filter(item, address, e.projectPath, now);
      if address in resolved {
        resolved' := resolved[address := resolved[address] + codes];
      } else {
        resolved' := resolved[address := codes];
        assert codes == var none: set<string> := {}; none + codes;
      }
      Takes(w, e, items, done, pick, k, found.value, resolved, marked, resolved');
    }

    /** The loop over the resolved identities. */
    method MatchAll(items: Candidates, keys: seq<string>, found: seq<Identity>, e: Event, now: int)
      returns (resolved: map<string, set<string>>, marked: set<string>, ghost pick: map<string, string>)
      requires preferences.syntax == identities.syntax
      requires NoDuplicates(keys) && forall k :: k in keys <==> k in items
      requires |found| == |keys| && forall i | 0 <= i < |keys| :: found[i] == Resolved(WorldAt(now), items[keys[i]].identity)
      ensures Progress(WorldAt(now), e, items, items.Keys, pick, resolved, marked)
    {
      ghost var w := WorldAt(now);
      resolved, marked, pick := map[], {}, map[];
      Begins(w, e, items);
      for n := 0 to |found|
        invariant Progress(w, e, items, FirstOf(keys, n), pick, resolved, marked)
      {
        FirstOfNext(keys, n);
        resolved, marked, pick := Absorb(items, keys, e, now, keys[n], found[n], resolved, marked, FirstOf(keys, n), pick);
      }
      FirstOfAll(keys, items.Keys);
    }

    /** The candidates that stay unresolved: not handled, and without an address of their own. */
    method Report(items: Candidates, now: int, marked: set<string>, ghost pick: map<string, string>) returns (unresolved: seq<Identity>)
      requires pick.Keys <= items.Keys && marked == Marked(WorldAt(now), items, pick)
      ensures Reports(WorldAt(now), items, pick, unresolved)
    {
      unresolved := [];
      var rest := items.Keys;
      while rest != {}
        invariant rest <= items.Keys
        invariant forall i :: i in unresolved <==> exists k :: k !in rest && Unresolved(WorldAt(now), items, pick, k) && items[k].identity == i
        decreases rest
      {
        var k :| k in rest;
        rest := rest - {k};
        if k in marked {
          continue;
        }
        if EmailAddress(identities.syntax, items[k].identity.email).None? {
          unresolved := unresolved + [items[k].identity];
        }
      }
    }

    /** Resolves the candidates and merges them per address. */
    method ResolveCandidates(items: Candidates, e: Event, now: int)
      returns (resolved: map<string, set<string>>, unresolved: seq<Identity>, ghost pick: map<string, string>)
      requires identities.Valid() && preferences.syntax == identities.syntax
      ensures pick.Keys <= items.Keys && Picks(Taken(WorldAt(now), items), items.Keys, pick)
      ensures Merged(Hits(HitOf(WorldAt(now), e, items), pick), resolved)
      ensures Reports(WorldAt(now), items, pick, unresolved)
    {
      var keys, people := Order(items);
      var found := identities.Resolve(people);
      var marked;
      resolved, marked, pick := MatchAll(items, keys, found, e, now);
      unresolved := Report(items, now, marked, pick);
    }

    /** The notices of the merged map, in the order it happens to be walked. */
    method Write(e: Event, resolved: map<string, set<string>>) returns (notices: seq<Notice>)
      ensures Notifies(identities.syntax, policy, e, resolved, notices)
    {
      notices := [];
      var rest := resolved.Keys;
      ghost var done: map<string, set<string>> := map[];
      while rest != {}
        invariant rest <= resolved.Keys && done == map a | a in resolved && a !in rest :: resolved[a]
        invariant Notifies(identities.syntax, policy, e, done, notices)
        decreases rest
      {
        var address :| address in rest;
        NotifiesNext(identities.syntax, policy, e, done, notices, address, resolved[address]);
        rest, done := rest - {address}, done[address := resolved[address]];
        if resolved[address] == {} || address == "" || !Allows(identities.syntax, policy, address) {
          continue;
        }
        notices := notices + [Notice(DeliveryKey(e, address, resolved[address]), address, resolved[address])];
      }
      assert done == resolved;
    }

    /** The state a pipeline event leaves behind. */
    method PipelineStateFor(e: Event, notices: seq<Notice>) returns (update: Option<Outbox.PipelineUpdate>)
      requires Apart(notices)
      requires e.pipeline.Some? && e.pipeline.value.status == "failed" ==>
                 forall n | n in notices :: n.key == DeliveryKey(e, n.address, {CI_FAILED})
      ensures update == if e.pipeline.Some? && e.pipeline.value.status in {"failed", "success"}
                        then Some(Outbox.PipelineUpdate(CorrelationKey(e), Outbox.PipelineState(e.pipeline.value.status, Recipients(notices))))
                        else None
    {
      if e.pipeline.None? || (e.pipeline.value.status != "failed" && e.pipeline.value.status != "success") {
        return None;
      }
      var recipients: seq<string> := [];
      for i := 0 to |notices|
        invariant recipients == Recipients(notices[..i])
      {
        var notice := notices[i];
        assert Recipients(notices[..i + 1]) == Recipients(notices[..i]) + [notice.address];
        FailureKeyMatches(e, notice.address);
        if !Contains(notice.key, CI_FAILED) && e.pipeline.value.status == "failed" {
          continue;
        }
        if notice.address in recipients {
          continue;
        }
        recipients := recipients + [notice.address];
      }
      assert notices[..|notices|] == notices;
      return Some(Outbox.PipelineUpdate(CorrelationKey(e), Outbox.PipelineState(e.pipeline.value.status, recipients)));
    }

    /** The candidates of an event. */
    method Gather(e: Event) returns (items: Candidates)
      requires e.kind != OtherEvent
      ensures items == AddAll(map[], Asks(e, outbox.pipelines))
    {
      var candidates := new CandidateSet();
      match e.kind {
        case PipelineEvent =>
          var state := outbox.Get(CorrelationKey(e));
          candidates.RoutePipeline(e, state, outbox.pipelines);
        case MergeRequestEvent => candidates.RouteMergeRequest(e);
        case NoteEvent => candidates.RouteNote(e);
        case IssueEvent => candidates.RouteIssue(e);
      }
      return candidates.items;
    }

    /** Decides who hears about an event, and what a pipeline event leaves behind. */
    method Route(e: Event, now: int) returns (result: Result<RouteResult, RouteError>, ghost pick: map<string, string>)
      requires identities.Valid() && preferences.syntax == identities.syntax
      ensures result == Failure(NoEventKey) <==> e.key == ""
      ensures result == Failure(IgnoredEvent) <==> e.key != "" && e.kind == OtherEvent
      ensures result.Success? ==>
                && RoutesBy(WorldAt(now), e, pick, result.value.notices)
                && Reports(WorldAt(now), AddAll(map[], Asks(e, outbox.pipelines)), pick, result.value.unresolved)
                && result.value.update == UpdateFor(e, result.value.notices)
    {
      if e.key == "" {
        return Failure(NoEventKey), map[];
      }
      if e.kind == OtherEvent {
        return Failure(IgnoredEvent), map[];
      }
      var items := Gather(e);
      var resolved, unresolved;
      resolved, unresolved, pick := ResolveCandidates(items, e, now);
      var notices := Write(e, resolved);
      ghost var w := WorldAt(now);
      NotifiesRoutes(w, e, items, pick, resolved, notices);
      var update := None;
      if e.kind == PipelineEvent && e.pipeline.Some? {
        if e.pipeline.value.status == "failed" {
          FailureCodes(w, e, notices);
        }
        update := PipelineStateFor(e, notices);
      }
      return Success(RouteResult(notices, update, unresolved)), pick;
    }
  }
}
