/** Notification preferences and the mute. Times are nanoseconds; a mute deadline is stored to the
    millisecond. Project lists are given as their split, non-empty entries. */
module Preferences {
  import opened Base
  import opened Text
  import opened Addresses
  import Outbox

  const CI_FAILED := "ci_failed"
  const CI_RECOVERED := "ci_recovered"
  const MR_REVIEW_REQUESTED := "mr_review_requested"
  const MR_ASSIGNED := "mr_assigned"
  const MR_UPDATED := "mr_updated"
  const MR_APPROVED := "mr_approved"
  const MR_STATE_CHANGED := "mr_state_changed"
  const MR_COMMENT := "mr_comment"
  const MENTION := "mention"
  const ISSUE_ASSIGNED := "issue_assigned"
  const ISSUE_UPDATED := "issue_updated"

  /** The reason codes of the router, each with its own column. */
  const CODES := {
    CI_FAILED, CI_RECOVERED, MR_REVIEW_REQUESTED, MR_ASSIGNED, MR_UPDATED, MR_APPROVED,
    MR_STATE_CHANGED, MR_COMMENT, MENTION, ISSUE_ASSIGNED, ISSUE_UPDATED
  }

  /** The names under which the reasons are stored and sent. */
  lemma CodeNames()
    ensures [CI_FAILED, CI_RECOVERED] == ["ci_failed", "ci_recovered"]
    ensures [MR_REVIEW_REQUESTED, MR_ASSIGNED, MR_UPDATED] == ["mr_review_requested", "mr_assigned", "mr_updated"]
    ensures [MR_APPROVED, MR_STATE_CHANGED, MR_COMMENT] == ["mr_approved", "mr_state_changed", "mr_comment"]
    ensures [MENTION, ISSUE_ASSIGNED, ISSUE_UPDATED] == ["mention", "issue_assigned", "issue_updated"]
  {}

  /** The muted_until column: empty, a stored time, or a text that is no time. */
  datatype Deadline = Unset | Until(stamp: int) | Garbled

  datatype Row = Row(enabled: bool, reasons: set<string>, included: seq<string>, excluded: seq<string>, mutedUntil: Deadline)

  type Rows = map<string, Row>

  datatype MuteState = MuteState(muted: bool, until: Option<int>)

  function TrimSlashes(s: string): string {
    if s != "" && s[|s| - 1] == '/' then TrimSlashes(s[..|s| - 1]) else s
  }

  predicate MatchesProject(project: string, patterns: seq<string>) {
    exists p | p in patterns :: Trim(p) == project || TrimSlashes(Trim(p)) + "/" <= project
  }

  predicate ProjectAllowed(path: string, included: seq<string>, excluded: seq<string>) {
    var project := Trim(path);
    project == ""
    || ((included != [] ==> MatchesProject(project, included)) && (excluded != [] ==> !MatchesProject(project, excluded)))
  }

  predicate MuteExpired(until: Deadline, now: int) {
    until.Until? && now >= until.stamp * Outbox.MILLISECOND
  }

  /** Whether one reason may be sent to an address. */
  predicate Enabled(syntax: Syntax, rows: Rows, now: int, address: string, code: string, project: string) {
    var email := UsableEmail(syntax, address);
    && email != ""
    && (code in CODES ==>
          if email !in rows then code != ISSUE_UPDATED
          else
            var row := rows[email];
            && (!row.enabled ==> MuteExpired(row.mutedUntil, now))
            && code in row.reasons
            && ProjectAllowed(project, row.included, row.excluded))
  }

  function StateOf(syntax: Syntax, rows: Rows, now: int, address: string): MuteState {
    var email := UsableEmail(syntax, address);
    if email == "" || email !in rows || rows[email].enabled then MuteState(false, None)
    else
      match rows[email].mutedUntil
      case Until(stamp) =>
        if now >= stamp * Outbox.MILLISECOND then MuteState(false, None)
        else MuteState(true, Some(stamp * Outbox.MILLISECOND))
      case _ => MuteState(true, None)
  }

  /** The column defaults of a row that only a mute has written. */
  const DEFAULT_ROW := Row(true, CODES - {ISSUE_UPDATED}, [], [], Unset)

  /** The upsert of SetMute for a usable address. */
  function WithMute(rows: Rows, email: string, until: Option<int>): Rows {
    var row := if email in rows then rows[email] else DEFAULT_ROW;
    rows[email := row.(enabled := until.None?,
                       mutedUntil := match until case None => Unset case Some(t) => Until(Outbox.Stamp(t)))]
  }

  /** Both readers agree on "muted now": a reason goes out exactly when the address is not muted and
      the same preferences without any mute allow it. */
  lemma ReadersAgree(syntax: Syntax, rows: Rows, now: int, address: string, code: string, project: string)
    requires code in CODES
    ensures var email := UsableEmail(syntax, address);
            var unmuted := if email in rows then rows[email := rows[email].(enabled := true)] else rows;
            Enabled(syntax, rows, now, address, code, project)
            <==> !StateOf(syntax, rows, now, address).muted && Enabled(syntax, unmuted, now, address, code, project)
  {}

  /** A mute blocks every reason before its stored deadline and no reason from then on. */
  lemma MuteLasts(syntax: Syntax, rows: Rows, deadline: int, address: string, now: int, code: string, project: string)
    requires code in CODES && UsableEmail(syntax, address) != ""
    ensures var email := UsableEmail(syntax, address);
            Enabled(syntax, WithMute(rows, email, Some(deadline)), now, address, code, project)
            <==> now >= Outbox.Stamp(deadline) * Outbox.MILLISECOND
                 && Enabled(syntax, WithMute(rows, email, None), now, address, code, project)
  {}

  /** Every answer for an address at a time. */
  ghost predicate SameAnswers(syntax: Syntax, rows: Rows, rows': Rows, now: int, address: string) {
    forall code, project :: Enabled(syntax, rows, now, address, code, project) <==> Enabled(syntax, rows', now, address, code, project)
  }

  /** Muting and unmuting restores every answer, including those of an address without a row, exactly
      for an address that is not muted at the time asked about, or that has every reason switched off. */
  lemma MuteUnmuteRestoresExactly(syntax: Syntax, rows: Rows, deadline: int, address: string, now: int)
    requires UsableEmail(syntax, address) != ""
    ensures var email := UsableEmail(syntax, address);
            SameAnswers(syntax, rows, WithMute(WithMute(rows, email, Some(deadline)), email, None), now, address)
            <==> !StateOf(syntax, rows, now, address).muted || rows[email].reasons !! CODES
  {
    var email := UsableEmail(syntax, address);
    var after := WithMute(WithMute(rows, email, Some(deadline)), email, None);
    if StateOf(syntax, rows, now, address).muted && !(rows[email].reasons !! CODES) {
      var code :| code in rows[email].reasons && code in CODES;
      assert Enabled(syntax, after, now, address, code, "");
      assert !Enabled(syntax, rows, now, address, code, "");
    } else {
      forall code, project
        ensures Enabled(syntax, rows, now, address, code, project) <==> Enabled(syntax, after, now, address, code, project)
      {
      }
    }
  }

  /** An address without a row hears every reason but the update of an issue, and so does one whose row only
      a mute that is over has written. */
  lemma DefaultAnswers(syntax: Syntax, rows: Rows, address: string, now: int, code: string, project: string)
    requires code in CODES && UsableEmail(syntax, address) != "" && UsableEmail(syntax, address) !in rows
    ensures Enabled(syntax, rows, now, address, code, project) <==> code != "issue_updated"
    ensures Enabled(syntax, WithMute(rows, UsableEmail(syntax, address), None), now, address, code, project) <==> code != "issue_updated"
  {}

  /** No one is told anything at an address that cannot be used. */
  lemma UnusableHearsNothing(syntax: Syntax, rows: Rows, address: string, now: int, code: string, project: string)
    requires UsableEmail(syntax, address) == ""
    ensures !Enabled(syntax, rows, now, address, code, project)
  {}

  /** The row of an address that is not muted decides: the reason must be on and the project allowed. */
  lemma RowAnswers(syntax: Syntax, rows: Rows, address: string, now: int, code: string, project: string)
    requires code in CODES && UsableEmail(syntax, address) in rows && UsableEmail(syntax, address) != ""
    requires rows[UsableEmail(syntax, address)].enabled
    ensures Enabled(syntax, rows, now, address, code, project) <==>
              code in rows[UsableEmail(syntax, address)].reasons
              && ProjectAllowed(project, rows[UsableEmail(syntax, address)].included, rows[UsableEmail(syntax, address)].excluded)
  {}

  /** A pattern covers the project of that path and everything below it. */
  ghost predicate Covers(pattern: string, project: string) {
    var p := Trim(pattern);
    || p == project
    || exists group, slashes, below ::
         p == group + slashes && (group == "" || group[|group| - 1] != '/') && (forall c | c in slashes :: c == '/')
         && project == group + "/" + below
  }

  lemma {:induction false} TrimSlashesMeaning(p: string) returns (slashes: string)
    ensures p == TrimSlashes(p) + slashes && (forall c | c in slashes :: c == '/')
    ensures TrimSlashes(p) == "" || TrimSlashes(p)[|TrimSlashes(p)| - 1] != '/'
  {
    slashes := "";
    if p != "" && p[|p| - 1] == '/' {
      slashes := TrimSlashesMeaning(p[..|p| - 1]);
      slashes := slashes + "/";
    }
  }

  lemma {:induction false} TrimSlashesUnique(group: string, slashes: string)
    requires group == "" || group[|group| - 1] != '/'
    requires forall c | c in slashes :: c == '/'
    ensures TrimSlashes(group + slashes) == group
    decreases |slashes|
  {
    if slashes == "" {
      assert group + slashes == group;
    } else {
      var rest := slashes[..|slashes| - 1];
      assert slashes[|slashes| - 1] in slashes && forall c | c in rest :: c in slashes;
      assert (group + slashes)[..|group + slashes| - 1] == group + rest;
      TrimSlashesUnique(group, rest);
    }
  }

  lemma MatchesExactly(project: string, patterns: seq<string>)
    ensures MatchesProject(project, patterns) <==> exists p | p in patterns :: Covers(p, project)
  {
    forall p | p in patterns ensures Covers(p, project) <==> Trim(p) == project || TrimSlashes(Trim(p)) + "/" <= project {
      var t := Trim(p);
      var slashes := TrimSlashesMeaning(t);
      if TrimSlashes(t) + "/" <= project {
        assert project == TrimSlashes(t) + "/" + project[|TrimSlashes(t)| + 1..];
      }
      if group, tail, below :|
          t == group + tail && (group == "" || group[|group| - 1] != '/') && (forall c | c in tail :: c == '/')
          && project == group + "/" + below {
        TrimSlashesUnique(group, tail);
        assert project[..|group| + 1] == group + "/";
      }
    }
  }

  /** A project passes when it has no path, or is covered by the first list unless that is empty, and is not
      covered by the second. */
  lemma ProjectAllowedExactly(path: string, included: seq<string>, excluded: seq<string>)
    ensures ProjectAllowed(path, included, excluded) <==>
              || Trim(path) == ""
              || ((included == [] || exists p | p in included :: Covers(p, Trim(path)))
                  && !exists p | p in excluded :: Covers(p, Trim(path)))
  {
    MatchesExactly(Trim(path), included);
    MatchesExactly(Trim(path), excluded);
  }

  /** A mute only ever changes the answers for its own address. */
  lemma MuteFrame(syntax: Syntax, rows: Rows, email: string, until: Option<int>, now: int, other: string)
    requires UsableEmail(syntax, other) != email
    ensures SameAnswers(syntax, rows, WithMute(rows, email, until), now, other)
  {
    forall code, project
      ensures Enabled(syntax, rows, now, other, code, project)
              <==> Enabled(syntax, WithMute(rows, email, until), now, other, code, project)
    {
      assert UsableEmail(syntax, other) in rows <==> UsableEmail(syntax, other) in WithMute(rows, email, until);
    }
  }

  class PreferenceStore {
    const syntax: Syntax
    var rows: Rows

    constructor (syntax: Syntax)
      ensures rows == map[] && this.syntax == syntax
    {
      this.syntax := syntax;
      rows := map[];
    }

    method SetMute(address: string, until: Option<int>) returns (written: bool)
      modifies this
      ensures written == (UsableEmail(syntax, address) != "")
      ensures rows == if written then WithMute(old(rows), UsableEmail(syntax, address), until) else old(rows)
    {
      var email := UsableEmail(syntax, address);
      if email == "" {
        return false;
      }
      var enabled, mutedUntil := true, Unset;
      if until.Some? {
        enabled, mutedUntil := false, Until(Outbox.Stamp(until.value));
      }
      var row := if email in rows then rows[email] else DEFAULT_ROW;
      rows := rows[email := row.(enabled := enabled, mutedUntil := mutedUntil)];
      return true;
    }
  }
}
