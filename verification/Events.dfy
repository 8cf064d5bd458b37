/** Canonical events and the candidates a webhook names, in the order the router asks for them. */
module Events {
  import opened Base
  import opened Text
  import opened Identities
  import opened Preferences
  import Outbox

  datatype Kind = PipelineEvent | MergeRequestEvent | NoteEvent | IssueEvent | OtherEvent

  datatype Change = Change(field: string, added: seq<Identity>)

  datatype Pipeline = Pipeline(status: string, ref: string, commitAuthor: Identity, mergeRequestIid: string)

  datatype MergeRequest = MergeRequest(author: Identity, reviewers: seq<Identity>, assignees: seq<Identity>)

  datatype Issue = Issue(author: Identity, assignees: seq<Identity>)

  datatype Note = Note(id: string, system: bool, mergeRequest: Option<MergeRequest>, issue: Option<Issue>)

  datatype Event = Event(
    key: string,
    source: string,
    kind: Kind,
    action: string,
    actor: Identity,
    author: Option<Identity>,
    reviewers: seq<Identity>,
    assignees: seq<Identity>,
    projectId: string,
    projectPath: string,
    objectIid: string,
    mentions: seq<Identity>,
    changes: seq<Change>,
    pipeline: Option<Pipeline>,
    mergeRequest: Option<MergeRequest>,
    note: Option<Note>,
    issue: Option<Issue>)

  predicate HasIdentity(i: Identity) {
    i.id != "" || i.username != "" || i.email != "" || i.name != ""
  }

  predicate Resolvable(i: Identity) {
    i.id != "" || i.username != "" || i.email != ""
  }

  predicate SameIdentity(l: Identity, r: Identity) {
    if l.id != "" && r.id != "" && l.provider == r.provider then l.id == r.id
    else if l.email != "" && r.email != "" then Lower(l.email) == Lower(r.email)
    else l.username != "" && r.username != "" && l.provider == r.provider && Lower(l.username) == Lower(r.username)
  }

  function CandidateKey(i: Identity): string {
    if i.id != "" then "id:" + i.provider + ":" + i.id
    else if i.username != "" then "username:" + i.provider + ":" + Lower(i.username)
    else "email:" + Lower(i.email)
  }

  function CorrelationKey(e: Event): string {
    var project := if e.projectId == "" then e.projectPath else e.projectId;
    if e.pipeline.Some? && e.pipeline.value.mergeRequestIid != "" then
      "gitlab:" + project + ":mr:" + e.pipeline.value.mergeRequestIid
    else
      "gitlab:" + project + ":ref:" + if e.pipeline.Some? then e.pipeline.value.ref else ""
  }

  // Who is whom

  /** Two people of one provider who both have an id are the same exactly when the ids are. Otherwise two
      e-mails decide, whatever their letter case, and without two e-mails the usernames of one provider. */
  lemma SameIdentityExactly(l: Identity, r: Identity)
    ensures l.id != "" && r.id != "" && l.provider == r.provider ==> (SameIdentity(l, r) <==> l.id == r.id)
    ensures (l.id == "" || r.id == "" || l.provider != r.provider) && l.email != "" && r.email != "" ==>
              (SameIdentity(l, r) <==> Lower(l.email) == Lower(r.email))
    ensures (l.id == "" || r.id == "" || l.provider != r.provider) && (l.email == "" || r.email == "") ==>
              (SameIdentity(l, r) <==>
                 l.provider == r.provider && l.username != "" && r.username != "" && Lower(l.username) == Lower(r.username))
    ensures SameIdentity(l, r) <==> SameIdentity(r, l)
  {}

  /** The letter case of an e-mail or a username never matters. */
  lemma CaseNeverMatters(l: Identity, r: Identity)
    ensures SameIdentity(l.(email := Upper(l.email), username := Upper(l.username)), r) <==> SameIdentity(l, r)
    ensures l.id == "" ==> CandidateKey(l.(email := Upper(l.email), username := Upper(l.username))) == CandidateKey(l)
  {
    LowerMeaning(l.email);
    LowerMeaning(l.username);
    assert |Upper(l.email)| == |l.email| && |Upper(l.username)| == |l.username|;
  }

  /** What a candidate is filed under: the id of a provider, else its username, else the e-mail. */
  datatype Handle = ById(provider: string, id: string) | ByUsername(provider: string, username: string) | ByEmail(email: string)

  function HandleOf(i: Identity): Handle {
    if i.id != "" then ById(i.provider, i.id)
    else if i.username != "" then ByUsername(i.provider, Lower(i.username))
    else ByEmail(Lower(i.email))
  }

  /** Two people share a candidate exactly when they are filed under the same handle. */
  lemma CandidateKeysExactly(l: Identity, r: Identity)
    requires ':' !in l.provider && ':' !in r.provider
    ensures CandidateKey(l) == CandidateKey(r) <==> HandleOf(l) == HandleOf(r)
  {
    var a, b := CandidateKey(l), CandidateKey(r);
    if a == b {
      assert a[0] == (if l.id != "" then 'i' else if l.username != "" then 'u' else 'e');
      assert b[0] == (if r.id != "" then 'i' else if r.username != "" then 'u' else 'e');
      if l.id != "" {
        assert a[3..] == l.provider + ":" + l.id && b[3..] == r.provider + ":" + r.id;
        SplitFirst(l.provider, r.provider, l.id, r.id, ':');
      } else if l.username != "" {
        assert a[9..] == l.provider + ":" + Lower(l.username) && b[9..] == r.provider + ":" + Lower(r.username);
        SplitFirst(l.provider, r.provider, Lower(l.username), Lower(r.username), ':');
      } else {
        assert a[6..] == Lower(l.email) && b[6..] == Lower(r.email);
      }
    }
  }

  /** Two events are about the same pipeline: that of the same merge request, or of the same ref outside any
      merge request, of one project. */
  predicate SamePipeline(e: Event, e': Event) {
    && ProjectOf(e) == ProjectOf(e')
    && NumberOf(e) == NumberOf(e')
    && (NumberOf(e) == "" ==> RefOf(e) == RefOf(e'))
  }

  function ProjectOf(e: Event): string {
    if e.projectId != "" then e.projectId else e.projectPath
  }

  function NumberOf(e: Event): string {
    if e.pipeline.Some? then e.pipeline.value.mergeRequestIid else ""
  }

  function RefOf(e: Event): string {
    if e.pipeline.Some? then e.pipeline.value.ref else ""
  }

  /** The correlation key tells pipelines apart, exactly. */
  lemma CorrelationExactly(e: Event, e': Event)
    requires ':' !in ProjectOf(e) && ':' !in ProjectOf(e')
    ensures CorrelationKey(e) == CorrelationKey(e') <==> SamePipeline(e, e')
  {
    var rest := if NumberOf(e) != "" then "mr:" + NumberOf(e) else "ref:" + RefOf(e);
    var rest' := if NumberOf(e') != "" then "mr:" + NumberOf(e') else "ref:" + RefOf(e');
    assert CorrelationKey(e) == "gitlab:" + (ProjectOf(e) + ":" + rest);
    assert CorrelationKey(e') == "gitlab:" + (ProjectOf(e') + ":" + rest');
    if CorrelationKey(e) == CorrelationKey(e') {
      assert CorrelationKey(e)[7..] == ProjectOf(e) + ":" + rest && CorrelationKey(e')[7..] == ProjectOf(e') + ":" + rest';
      SplitFirst(ProjectOf(e), ProjectOf(e'), rest, rest', ':');
      assert rest[0] == (if NumberOf(e) != "" then 'm' else 'r') && rest'[0] == (if NumberOf(e') != "" then 'm' else 'r');
      assert NumberOf(e) != "" ==> rest[3..] == NumberOf(e) && rest'[3..] == NumberOf(e');
      assert NumberOf(e) == "" ==> rest[4..] == RefOf(e) && rest'[4..] == RefOf(e');
    }
  }

  /** One call of add or addAddress: a person or an address, the reason, and whether the actor counts. */
  datatype Ask = Person(identity: Identity, code: string, allowSelf: bool) | Address(value: string, code: string, allowSelf: bool)

  predicate Counts(a: Ask) {
    match a
    case Person(i, _, _) => HasIdentity(i)
    case Address(v, _, _) => v != ""
  }

  function Named(a: Ask): Identity {
    match a
    case Person(i, _, _) => i
    case Address(v, _, _) => Identity("", "", "", Normal(v), "")
  }

  datatype Candidate = Candidate(identity: Identity, reasons: set<string>, allowSelf: bool)

  type Candidates = map<string, Candidate>

  function Add(items: Candidates, a: Ask): Candidates {
    if !Counts(a) then items
    else
      var key := CandidateKey(Named(a));
      if key in items then
        items[key := items[key].(reasons := items[key].reasons + {a.code}, allowSelf := items[key].allowSelf || a.allowSelf)]
      else
        items[key := Candidate(Named(a), {a.code}, a.allowSelf)]
  }

  function AddAll(items: Candidates, asks: seq<Ask>): Candidates {
    if asks == [] then items else Add(AddAll(items, asks[..|asks| - 1]), asks[|asks| - 1])
  }

  function Each(people: seq<Identity>, code: string): seq<Ask> {
    seq(|people|, i requires 0 <= i < |people| => Person(people[i], code, false))
  }

  function Known(i: Identity, code: string): seq<Ask> {
    if HasIdentity(i) then [Person(i, code, false)] else []
  }

  // Who is asked for, per kind of event

  /** Everyone the remembered failure went to, for a recovery. */
  function EachAddress(addresses: seq<string>): seq<Ask> {
    seq(|addresses|, i requires 0 <= i < |addresses| => Address(addresses[i], CI_RECOVERED, true))
  }

  function PipelineAsks(e: Event, pipelines: map<string, Outbox.PipelineState>): seq<Ask> {
    if e.pipeline.None? then []
    else if e.pipeline.value.status == "failed" then
      var author := e.pipeline.value.commitAuthor;
      [Person(if Resolvable(author) then author else e.actor, CI_FAILED, true)]
    else if e.pipeline.value.status == "success" && CorrelationKey(e) in pipelines
            && pipelines[CorrelationKey(e)].status == "failed" then
      EachAddress(pipelines[CorrelationKey(e)].recipients)
    else []
  }

  function ChangeAsks(mr: MergeRequest, c: Change): seq<Ask> {
    if c.field == "reviewers" then Each(c.added, MR_REVIEW_REQUESTED)
    else if c.field == "assignees" then Each(c.added, MR_ASSIGNED)
    else if c.field in {"title", "description", "source_branch", "target_branch", "draft"} then
      Known(mr.author, MR_UPDATED)
      + if c.field == "draft" || c.field == "target_branch" then Each(mr.reviewers, MR_STATE_CHANGED) else []
    else []
  }

  function ChangesAsks(mr: MergeRequest, changes: seq<Change>): seq<Ask> {
    if changes == [] then []
    else ChangesAsks(mr, changes[..|changes| - 1]) + ChangeAsks(mr, changes[|changes| - 1])
  }

  function MergeRequestActionAsks(e: Event, mr: MergeRequest): seq<Ask> {
    if e.action == "open" then Each(mr.reviewers, MR_REVIEW_REQUESTED) + Each(mr.assignees, MR_ASSIGNED)
    else if e.action == "update" then ChangesAsks(mr, e.changes)
    else if e.action in {"approved", "approval", "unapproved", "unapproval"} then Known(mr.author, MR_APPROVED)
    else if e.action in {"merge", "close", "reopen"} then Known(mr.author, MR_STATE_CHANGED)
    else []
  }

  function MergeRequestAsks(e: Event): seq<Ask> {
    if e.mergeRequest.None? then []
    else MergeRequestActionAsks(e, e.mergeRequest.value) + Each(e.mentions, MENTION)
  }

  function AuthorOfComment(e: Event, author: Identity, code: string): seq<Ask> {
    if HasIdentity(author) && !SameIdentity(e.actor, author) then [Person(author, code, false)] else []
  }

  function NoteAsks(e: Event): seq<Ask> {
    if e.note.None? || e.note.value.system then []
    else
      (if e.note.value.mergeRequest.Some? then AuthorOfComment(e, e.note.value.mergeRequest.value.author, MR_COMMENT) else [])
      + (if e.note.value.issue.Some? then AuthorOfComment(e, e.note.value.issue.value.author, ISSUE_UPDATED) else [])
      + Each(e.mentions, MENTION)
  }

  function IssueChangeAsks(issue: Issue, c: Change): seq<Ask> {
    if c.field == "assignees" then Each(c.added, ISSUE_ASSIGNED)
    else if c.field in {"title", "description", "state"} then Known(issue.author, ISSUE_UPDATED)
    else []
  }

  function IssueChangesAsks(issue: Issue, changes: seq<Change>): seq<Ask> {
    if changes == [] then []
    else IssueChangesAsks(issue, changes[..|changes| - 1]) + IssueChangeAsks(issue, changes[|changes| - 1])
  }

  function IssueAsks(e: Event): seq<Ask> {
    if e.issue.None? then []
    else
      (if e.action == "open" then Each(e.issue.value.assignees, ISSUE_ASSIGNED)
       else if e.action == "update" then IssueChangesAsks(e.issue.value, e.changes)
       else [])
      + Each(e.mentions, MENTION)
  }

  function Asks(e: Event, pipelines: map<string, Outbox.PipelineState>): seq<Ask> {
    match e.kind
    case PipelineEvent => PipelineAsks(e, pipelines)
    case MergeRequestEvent => MergeRequestAsks(e)
    case NoteEvent => NoteAsks(e)
    case IssueEvent => IssueAsks(e)
    case OtherEvent => []
  }

  // Who is told why, reason by reason

  predicate Changed(changes: seq<Change>, fields: set<string>) {
    exists c | c in changes :: c.field in fields
  }

  predicate Added(changes: seq<Change>, field: string, i: Identity) {
    exists c | c in changes :: c.field == field && i in c.added
  }

  predicate IsAuthor(author: Identity, i: Identity) {
    i == author && HasIdentity(i)
  }

  const MR_FIELDS := {"title", "description", "source_branch", "target_branch", "draft"}
  const MR_STATE_FIELDS := {"draft", "target_branch"}
  const ISSUE_FIELDS := {"title", "description", "state"}

  /** An update of a merge request tells i under a reason. */
  predicate MergeRequestChangeTells(mr: MergeRequest, changes: seq<Change>, i: Identity, code: string) {
    || (code == MR_REVIEW_REQUESTED && Added(changes, "reviewers", i))
    || (code == MR_ASSIGNED && Added(changes, "assignees", i))
    || (code == MR_UPDATED && IsAuthor(mr.author, i) && Changed(changes, MR_FIELDS))
    || (code == MR_STATE_CHANGED && i in mr.reviewers && Changed(changes, MR_STATE_FIELDS))
  }

  predicate MergeRequestTells(e: Event, mr: MergeRequest, i: Identity, code: string) {
    || (e.action == "update" && MergeRequestChangeTells(mr, e.changes, i, code))
    || (code == MR_REVIEW_REQUESTED && e.action == "open" && i in mr.reviewers)
    || (code == MR_ASSIGNED && e.action == "open" && i in mr.assignees)
    || (code == MR_APPROVED && IsAuthor(mr.author, i) && e.action in {"approved", "approval", "unapproved", "unapproval"})
    || (code == MR_STATE_CHANGED && IsAuthor(mr.author, i) && e.action in {"merge", "close", "reopen"})
    || (code == MENTION && i in e.mentions)
  }

  /** A comment tells the other party, and whom it mentions; a system note tells no one. */
  predicate NoteTells(e: Event, note: Note, i: Identity, code: string) {
    !note.system
    && (|| (code == MR_COMMENT && note.mergeRequest.Some? && IsAuthor(note.mergeRequest.value.author, i) && !SameIdentity(e.actor, i))
        || (code == ISSUE_UPDATED && note.issue.Some? && IsAuthor(note.issue.value.author, i) && !SameIdentity(e.actor, i))
        || (code == MENTION && i in e.mentions))
  }

  predicate IssueChangeTells(issue: Issue, changes: seq<Change>, i: Identity, code: string) {
    || (code == ISSUE_ASSIGNED && Added(changes, "assignees", i))
    || (code == ISSUE_UPDATED && IsAuthor(issue.author, i) && Changed(changes, ISSUE_FIELDS))
  }

  predicate IssueTells(e: Event, issue: Issue, i: Identity, code: string) {
    || (e.action == "update" && IssueChangeTells(issue, e.changes, i, code))
    || (code == ISSUE_ASSIGNED && e.action == "open" && i in issue.assignees)
    || (code == MENTION && i in e.mentions)
  }

  /** The commit author is told of a failed pipeline, or the actor when the author cannot be resolved. */
  predicate PipelineTells(pipeline: Pipeline, actor: Identity, i: Identity, code: string) {
    code == CI_FAILED && pipeline.status == "failed" && i == if Resolvable(pipeline.commitAuthor) then pipeline.commitAuthor else actor
  }

  /** The address was told of the failure that a success now clears. */
  predicate Recovers(e: Event, pipelines: map<string, Outbox.PipelineState>, address: string) {
    && e.pipeline.Some? && e.pipeline.value.status == "success"
    && CorrelationKey(e) in pipelines && pipelines[CorrelationKey(e)].status == "failed"
    && address in pipelines[CorrelationKey(e)].recipients
  }

  /** Whom an event asks for, and why. Only the outcome of a pipeline is told to its own actor. */
  predicate Tells(e: Event, pipelines: map<string, Outbox.PipelineState>, ask: Ask) {
    match ask
    case Address(v, code, self) => e.kind == PipelineEvent && code == CI_RECOVERED && self && Recovers(e, pipelines, v)
    case Person(i, code, self) =>
      match e.kind
      case PipelineEvent => self && e.pipeline.Some? && PipelineTells(e.pipeline.value, e.actor, i, code)
      case MergeRequestEvent => !self && e.mergeRequest.Some? && MergeRequestTells(e, e.mergeRequest.value, i, code)
      case NoteEvent => !self && e.note.Some? && NoteTells(e, e.note.value, i, code)
      case IssueEvent => !self && e.issue.Some? && IssueTells(e, e.issue.value, i, code)
      case OtherEvent => false
  }

  lemma EachMember(people: seq<Identity>, code: string, ask: Ask)
    ensures ask in Each(people, code) <==> ask.Person? && ask.code == code && !ask.allowSelf && ask.identity in people
  {
    if ask.Person? && ask.code == code && !ask.allowSelf && ask.identity in people {
      var n :| 0 <= n < |people| && people[n] == ask.identity;
      assert Each(people, code)[n] == ask;
    }
  }

  lemma ChangeMember(mr: MergeRequest, c: Change, ask: Ask)
    ensures ask in ChangeAsks(mr, c) <==> ask.Person? && !ask.allowSelf && MergeRequestChangeTells(mr, [c], ask.identity, ask.code)
  {
    EachMember(c.added, MR_REVIEW_REQUESTED, ask);
    EachMember(c.added, MR_ASSIGNED, ask);
    EachMember(mr.reviewers, MR_STATE_CHANGED, ask);
    assert c in [c];
  }

  lemma IssueChangeMember(issue: Issue, c: Change, ask: Ask)
    ensures ask in IssueChangeAsks(issue, c) <==> ask.Person? && !ask.allowSelf && IssueChangeTells(issue, [c], ask.identity, ask.code)
  {
    EachMember(c.added, ISSUE_ASSIGNED, ask);
    assert c in [c];
  }

  lemma ChangesSnoc(changes: seq<Change>, c: Change, fields: set<string>, field: string, i: Identity)
    ensures Changed(changes + [c], fields) <==> Changed(changes, fields) || Changed([c], fields)
    ensures Added(changes + [c], field, i) <==> Added(changes, field, i) || Added([c], field, i)
  {
    assert forall d :: d in changes + [c] <==> d in changes || d in [c];
  }

  lemma {:induction false} ChangesMember(mr: MergeRequest, changes: seq<Change>, ask: Ask)
    ensures ask in ChangesAsks(mr, changes) <==> ask.Person? && !ask.allowSelf && MergeRequestChangeTells(mr, changes, ask.identity, ask.code)
  {
    if changes != [] {
      var front, last := changes[..|changes| - 1], changes[|changes| - 1];
      assert changes == front + [last];
      ChangesMember(mr, front, ask);
      ChangeMember(mr, last, ask);
      if ask.Person? {
        ChangesSnoc(front, last, MR_FIELDS, "reviewers", ask.identity);
        ChangesSnoc(front, last, MR_STATE_FIELDS, "assignees", ask.identity);
      }
    }
  }

  lemma {:induction false} IssueChangesMember(issue: Issue, changes: seq<Change>, ask: Ask)
    ensures ask in IssueChangesAsks(issue, changes) <==> ask.Person? && !ask.allowSelf && IssueChangeTells(issue, changes, ask.identity, ask.code)
  {
    if changes != [] {
      var front, last := changes[..|changes| - 1], changes[|changes| - 1];
      assert changes == front + [last];
      IssueChangesMember(issue, front, ask);
      IssueChangeMember(issue, last, ask);
      if ask.Person? {
        ChangesSnoc(front, last, ISSUE_FIELDS, "assignees", ask.identity);
      }
    }
  }

  // Each handler asks for exactly the people the reasons name

  lemma PipelineTold(e: Event, pipelines: map<string, Outbox.PipelineState>, ask: Ask)
    requires e.kind == PipelineEvent
    ensures ask in PipelineAsks(e, pipelines) <==> Tells(e, pipelines, ask)
  {
    if ask.Address? && Recovers(e, pipelines, ask.value) {
      var recipients := pipelines[CorrelationKey(e)].recipients;
      var n :| 0 <= n < |recipients| && recipients[n] == ask.value;
      assert EachAddress(recipients)[n] == Address(ask.value, CI_RECOVERED, true);
    }
  }

  lemma MergeRequestTold(e: Event, pipelines: map<string, Outbox.PipelineState>, ask: Ask)
    requires e.kind == MergeRequestEvent
    ensures ask in MergeRequestAsks(e) <==> Tells(e, pipelines, ask)
  {
    if e.mergeRequest.Some? {
      MergeRequestActionTold(e, e.mergeRequest.value, ask);
      EachMember(e.mentions, MENTION, ask);
    }
  }

  lemma MergeRequestActionTold(e: Event, mr: MergeRequest, ask: Ask)
    ensures ask in MergeRequestActionAsks(e, mr) || ask in Each(e.mentions, MENTION) <==>
              ask.Person? && !ask.allowSelf && MergeRequestTells(e, mr, ask.identity, ask.code)
  {
    EachMember(e.mentions, MENTION, ask);
    EachMember(mr.reviewers, MR_REVIEW_REQUESTED, ask);
    EachMember(mr.assignees, MR_ASSIGNED, ask);
    ChangesMember(mr, e.changes, ask);
  }

  lemma NoteTold(e: Event, pipelines: map<string, Outbox.PipelineState>, ask: Ask)
    requires e.kind == NoteEvent
    ensures ask in NoteAsks(e) <==> Tells(e, pipelines, ask)
  {
    EachMember(e.mentions, MENTION, ask);
  }

  lemma IssueTold(e: Event, pipelines: map<string, Outbox.PipelineState>, ask: Ask)
    requires e.kind == IssueEvent
    ensures ask in IssueAsks(e) <==> Tells(e, pipelines, ask)
  {
    if e.issue.Some? {
      EachMember(e.mentions, MENTION, ask);
      EachMember(e.issue.value.assignees, ISSUE_ASSIGNED, ask);
      IssueChangesMember(e.issue.value, e.changes, ask);
    }
  }

  /** The router asks for exactly the people its reasons name. */
  lemma AsksExactly(e: Event, pipelines: map<string, Outbox.PipelineState>)
    ensures forall ask :: ask in Asks(e, pipelines) <==> Tells(e, pipelines, ask)
  {
    forall ask ensures ask in Asks(e, pipelines) <==> Tells(e, pipelines, ask) {
      match e.kind
      case PipelineEvent => PipelineTold(e, pipelines, ask);
      case MergeRequestEvent => MergeRequestTold(e, pipelines, ask);
      case NoteEvent => NoteTold(e, pipelines, ask);
      case IssueEvent => IssueTold(e, pipelines, ask);
      case OtherEvent =>
    }
  }

  /** The router only uses the eleven reason codes that have a preference column. */
  lemma AsksCodes(e: Event, pipelines: map<string, Outbox.PipelineState>)
    ensures forall a | a in Asks(e, pipelines) :: a.code in CODES
  {
    AsksExactly(e, pipelines);
  }

  /** Whoever has any field counts, even a name alone, and an address counts unless it is empty; nothing else
      does. */
  lemma CountsExactly(i: Identity, code: string, self: bool, address: string)
    ensures Counts(Person(i, code, self)) <==> i.(provider := "") != Identity("", "", "", "", "")
    ensures Counts(Address(address, code, self)) <==> address != ""
  {}

  /** The actor stands in for a commit author exactly when the author has neither an id, nor a username, nor
      an e-mail. */
  lemma ActorStandsInExactly(e: Event, pipelines: map<string, Outbox.PipelineState>, i: Identity)
    requires e.kind == PipelineEvent && e.pipeline.Some? && e.pipeline.value.status == "failed"
    ensures Tells(e, pipelines, Person(i, "ci_failed", true)) <==>
              var author := e.pipeline.value.commitAuthor;
              i == if author.(provider := "", name := "") == Identity("", "", "", "", "") then e.actor else author
  {}

  /** The author of the subject of a comment is told exactly when it is someone, and someone other than the
      one who commented; ids of one provider decide that alone. */
  lemma CommentTellsAuthorExactly(e: Event, pipelines: map<string, Outbox.PipelineState>, author: Identity)
    requires e.kind == NoteEvent && e.note.Some? && !e.note.value.system
    requires author.id != "" && e.actor.id != "" && author.provider == e.actor.provider
    ensures e.note.value.mergeRequest.Some? && e.note.value.mergeRequest.value.author == author ==>
              (Tells(e, pipelines, Person(author, "mr_comment", false)) <==> author.id != e.actor.id)
    ensures e.note.value.issue.Some? && e.note.value.issue.value.author == author ==>
              (Tells(e, pipelines, Person(author, "issue_updated", false)) <==> author.id != e.actor.id)
  {}

  // What the candidate set holds

  lemma {:induction false} AddAllAppend(items: Candidates, first: seq<Ask>, second: seq<Ask>)
    ensures AddAll(AddAll(items, first), second) == AddAll(items, first + second)
    decreases |second|
  {
    if second == [] {
      assert first + second == first;
    } else {
      var front, last := second[..|second| - 1], second[|second| - 1];
      AddAllAppend(items, first, front);
      assert (first + second)[..|first + second| - 1] == first + front;
    }
  }

  /** The asks that count and fall under one key. */
  predicate Under(a: Ask, key: string) {
    Counts(a) && CandidateKey(Named(a)) == key
  }

  function KeysOf(asks: seq<Ask>): set<string> {
    set a | a in asks && Counts(a) :: CandidateKey(Named(a))
  }

  function CodesUnder(asks: seq<Ask>, key: string): set<string> {
    set a | a in asks && Under(a, key) :: a.code
  }

  predicate SelfUnder(asks: seq<Ask>, key: string) {
    exists a | a in asks :: Under(a, key) && a.allowSelf
  }

  /** One candidate by meaning: it stands for one of the people asked for under its key, with exactly
      the codes asked for under it; the actor counts exactly when one of those asks says so. */
  ghost predicate GathersKey(c: Candidate, asks: seq<Ask>, key: string) {
    && c.reasons == CodesUnder(asks, key)
    && (c.allowSelf <==> SelfUnder(asks, key))
    && exists a | a in asks :: Under(a, key) && c.identity == Named(a)
  }

  /** The candidate map by meaning: one candidate for every key asked for. */
  ghost predicate Gathers(items: Candidates, asks: seq<Ask>) {
    items.Keys == KeysOf(asks) && forall key | key in items :: GathersKey(items[key], asks, key)
  }

  lemma AsksSnoc(asks: seq<Ask>, last: Ask, key: string)
    ensures KeysOf(asks + [last]) == KeysOf(asks) + if Counts(last) then {CandidateKey(Named(last))} else {}
    ensures CodesUnder(asks + [last], key) == CodesUnder(asks, key) + if Under(last, key) then {last.code} else {}
    ensures SelfUnder(asks + [last], key) <==> SelfUnder(asks, key) || (Under(last, key) && last.allowSelf)
    ensures key !in KeysOf(asks) ==> CodesUnder(asks, key) == {} && !SelfUnder(asks, key)
  {
    var all := asks + [last];
    assert forall a :: a in all <==> a in asks || a == last;
  }

  lemma GathersKeyNext(items: Candidates, asks: seq<Ask>, last: Ask, key: string)
    requires key in items ==> GathersKey(items[key], asks, key)
    requires key !in items ==> key !in KeysOf(asks)
    requires key in Add(items, last)
    ensures GathersKey(Add(items, last)[key], asks + [last], key)
  {
    AsksSnoc(asks, last, key);
    assert last in asks + [last];
    if key in items {
      var a :| a in asks && Under(a, key) && items[key].identity == Named(a);
      assert a in asks + [last];
    }
  }

  lemma GathersNext(items: Candidates, asks: seq<Ask>, last: Ask)
    requires Gathers(items, asks)
    ensures Gathers(Add(items, last), asks + [last])
  {
    AsksSnoc(asks, last, "");
    forall key | key in Add(items, last) ensures GathersKey(Add(items, last)[key], asks + [last], key) {
      GathersKeyNext(items, asks, last, key);
    }
  }

  lemma AddAllOne(items: Candidates, a: Ask)
    ensures AddAll(items, [a]) == Add(items, a)
  {
    assert [a][..0] == [];
  }

  lemma {:induction false} AddAllGathers(asks: seq<Ask>)
    ensures Gathers(AddAll(map[], asks), asks)
  {
    if asks != [] {
      AddAllGathers(asks[..|asks| - 1]);
      GathersNext(AddAll(map[], asks[..|asks| - 1]), asks[..|asks| - 1], asks[|asks| - 1]);
      assert asks == asks[..|asks| - 1] + [asks[|asks| - 1]];
    }
  }

  /** The first ask under a key. */
  ghost predicate FirstUnder(asks: seq<Ask>, n: nat, key: string) {
    n < |asks| && Under(asks[n], key) && forall j | 0 <= j < n :: !Under(asks[j], key)
  }

  /** The first one asked for under a key is the one who stands for all of them. */
  lemma {:induction false} FirstStands(asks: seq<Ask>, key: string) returns (n: nat)
    requires key in AddAll(map[], asks)
    ensures FirstUnder(asks, n, key) && AddAll(map[], asks)[key].identity == Named(asks[n])
  {
    var front, last := asks[..|asks| - 1], asks[|asks| - 1];
    if key in AddAll(map[], front) {
      n := FirstStands(front, key);
    } else {
      n := |front|;
      AddAllGathers(front);
      forall j | 0 <= j < n ensures !Under(asks[j], key) {
        assert asks[j] == front[j] && front[j] in front;
      }
    }
  }

  class CandidateSet {
    var items: Candidates

    constructor ()
      ensures items == map[]
    {
      items := map[];
    }

    method Add(identity: Identity, code: string, allowSelf: bool)
      modifies this
      ensures items == AddAll(old(items), [Person(identity, code, allowSelf)])
    {
      AddAllOne(items, Person(identity, code, allowSelf));
      if !HasIdentity(identity) {
        return;
      }
      var key := CandidateKey(identity);
      assert {code} == var none: set<string> := {}; none + {code};
      var item := if key in items then items[key] else Candidate(identity, {}, false);
      items := items[key := item.(reasons := item.reasons + {code}, allowSelf := item.allowSelf || allowSelf)];
    }

    method AddAddress(address: string, code: string, allowSelf: bool)
      modifies this
      ensures items == AddAll(old(items), [Address(address, code, allowSelf)])
    {
      AddAllOne(items, Address(address, code, allowSelf));
      if address == "" {
        return;
      }
      var identity := Identity("", "", "", Lower(Trim(address)), "");
      var key := CandidateKey(identity);
      assert {code} == var none: set<string> := {}; none + {code};
      var item := if key in items then items[key] else Candidate(identity, {}, false);
      items := items[key := item.(reasons := item.reasons + {code}, allowSelf := item.allowSelf || allowSelf)];
    }

    /** The loop over a list of people, as it stands in every branch. */
    method AddEach(people: seq<Identity>, code: string)
      modifies this
      ensures items == AddAll(old(items), Each(people, code))
    {
      for i := 0 to |people|
        invariant items == AddAll(old(items), Each(people[..i], code))
      {
        AddAllAppend(old(items), Each(people[..i], code), [Person(people[i], code, false)]);
        assert Each(people[..i + 1], code) == Each(people[..i], code) + [Person(people[i], code, false)];
        Add(people[i], code, false);
      }
      assert people[..|people|] == people;
    }

    method AddKnown(identity: Identity, code: string)
      modifies this
      ensures items == AddAll(old(items), Known(identity, code))
    {
      if HasIdentity(identity) {
        Add(identity, code, false);
      }
    }

    method RoutePipeline(e: Event, state: Option<Outbox.PipelineState>, ghost pipelines: map<string, Outbox.PipelineState>)
      requires state == if CorrelationKey(e) in pipelines then Some(pipelines[CorrelationKey(e)]) else None
      modifies this
      ensures items == AddAll(old(items), PipelineAsks(e, pipelines))
    {
      if e.pipeline.None? {
        return;
      }
      if e.pipeline.value.status == "failed" {
        var identity := e.pipeline.value.commitAuthor;
        if !Resolvable(identity) {
          identity := e.actor;
        }
        Add(identity, CI_FAILED, true);
      } else if e.pipeline.value.status == "success" {
        if state.None? || state.value.status != "failed" {
          return;
        }
        var recipients := state.value.recipients;
        for i := 0 to |recipients|
          invariant items == AddAll(old(items), EachAddress(recipients[..i]))
        {
          AddAllAppend(old(items), EachAddress(recipients[..i]), [Address(recipients[i], CI_RECOVERED, true)]);
          assert EachAddress(recipients[..i + 1]) == EachAddress(recipients[..i]) + [Address(recipients[i], CI_RECOVERED, true)];
          AddAddress(recipients[i], CI_RECOVERED, true);
        }
        assert recipients[..|recipients|] == recipients;
      }
    }

    method RouteMergeRequestChange(mr: MergeRequest, change: Change)
      modifies this
      ensures items == AddAll(old(items), ChangeAsks(mr, change))
    {
      if change.field == "reviewers" {
        AddEach(change.added, MR_REVIEW_REQUESTED);
      } else if change.field == "assignees" {
        AddEach(change.added, MR_ASSIGNED);
      } else if change.field in {"title", "description", "source_branch", "target_branch", "draft"} {
        AddKnown(mr.author, MR_UPDATED);
        if change.field == "draft" || change.field == "target_branch" {
          AddAllAppend(old(items), Known(mr.author, MR_UPDATED), Each(mr.reviewers, MR_STATE_CHANGED));
          AddEach(mr.reviewers, MR_STATE_CHANGED);
        } else {
          assert Known(mr.author, MR_UPDATED) + [] == Known(mr.author, MR_UPDATED);
        }
      }
    }

    method RouteMergeRequest(e: Event)
      modifies this
      ensures items == AddAll(old(items), MergeRequestAsks(e))
    {
      if e.mergeRequest.None? {
        return;
      }
      var mr := e.mergeRequest.value;
      if e.action == "open" {
        AddEach(mr.reviewers, MR_REVIEW_REQUESTED);
        AddAllAppend(old(items), Each(mr.reviewers, MR_REVIEW_REQUESTED), Each(mr.assignees, MR_ASSIGNED));
        AddEach(mr.assignees, MR_ASSIGNED);
      } else if e.action == "update" {
        for i := 0 to |e.changes|
          invariant items == AddAll(old(items), ChangesAsks(mr, e.changes[..i]))
        {
          AddAllAppend(old(items), ChangesAsks(mr, e.changes[..i]), ChangeAsks(mr, e.changes[i]));
          assert e.changes[..i + 1][..i] == e.changes[..i];
          RouteMergeRequestChange(mr, e.changes[i]);
        }
        assert e.changes[..|e.changes|] == e.changes;
      } else if e.action in {"approved", "approval", "unapproved", "unapproval"} {
        AddKnown(mr.author, MR_APPROVED);
      } else if e.action in {"merge", "close", "reopen"} {
        AddKnown(mr.author, MR_STATE_CHANGED);
      }
      AddAllAppend(old(items), MergeRequestActionAsks(e, mr), Each(e.mentions, MENTION));
      AddEach(e.mentions, MENTION);
    }

    method RouteNote(e: Event)
      modifies this
      ensures items == AddAll(old(items), NoteAsks(e))
    {
      if e.note.None? || e.note.value.system {
        return;
      }
      var note := e.note.value;
      ghost var first := if note.mergeRequest.Some? then AuthorOfComment(e, note.mergeRequest.value.author, MR_COMMENT) else [];
      ghost var second := if note.issue.Some? then AuthorOfComment(e, note.issue.value.author, ISSUE_UPDATED) else [];
      if note.mergeRequest.Some? {
        var author := note.mergeRequest.value.author;
        if HasIdentity(author) && !SameIdentity(e.actor, author) {
          Add(author, MR_COMMENT, false);
        }
      }
      AddAllAppend(old(items), first, second);
      if note.issue.Some? {
        var author := note.issue.value.author;
        if HasIdentity(author) && !SameIdentity(e.actor, author) {
          Add(author, ISSUE_UPDATED, false);
        }
      }
      AddAllAppend(old(items), first + second, Each(e.mentions, MENTION));
      AddEach(e.mentions, MENTION);
    }

    method RouteIssueChange(issue: Issue, change: Change)
      modifies this
      ensures items == AddAll(old(items), IssueChangeAsks(issue, change))
    {
      if change.field == "assignees" {
        AddEach(change.added, ISSUE_ASSIGNED);
      } else if change.field in {"title", "description", "state"} {
        AddKnown(issue.author, ISSUE_UPDATED);
      }
    }

    method RouteIssue(e: Event)
      modifies this
      ensures items == AddAll(old(items), IssueAsks(e))
    {
      if e.issue.None? {
        return;
      }
      var issue := e.issue.value;
      ghost var first :=
        if e.action == "open" then Each(issue.assignees, ISSUE_ASSIGNED)
        else if e.action == "update" then IssueChangesAsks(issue, e.changes)
        else [];
      if e.action == "open" {
        AddEach(issue.assignees, ISSUE_ASSIGNED);
      } else if e.action == "update" {
        for i := 0 to |e.changes|
          invariant items == AddAll(old(items), IssueChangesAsks(issue, e.changes[..i]))
        {
          AddAllAppend(old(items), IssueChangesAsks(issue, e.changes[..i]), IssueChangeAsks(issue, e.changes[i]));
          assert e.changes[..i + 1][..i] == e.changes[..i];
          RouteIssueChange(issue, e.changes[i]);
        }
        assert e.changes[..|e.changes|] == e.changes;
      }
      AddAllAppend(old(items), first, Each(e.mentions, MENTION));
      AddEach(e.mentions, MENTION);
    }
  }
}
