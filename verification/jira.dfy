/** What the front end shows the user: flashed messages and where it sends
    the browser next. */
module Web {
  import opened Text

  datatype Option<T> = None | Some(value: T)

  /** The flash categories the pages use. */
  datatype Category = Success | Danger | Info

  /** One `flash(text, category)`. */
  datatype Notice = Notice(category: Category, text: String)

  /** `redirect(request.url)` or `redirect(url_for('index'))`. */
  datatype Redirect = ToSamePage | ToIndex

  /** `d.get(k, default)`. */
  function Lookup(d: map<String, String>, k: String, default: String): (v: String)
    ensures k in d ==> v == d[k]
    ensures k !in d ==> v == default
  {
    if k in d then d[k] else default
  }
}

/** The work-log call of the tracker: one POST per call, answered by a
    status code and a body, turned into a success flag and a message. */
module Jira {
  import opened Text
  import opened Web

  /** A reply from the server: `response.status_code` and `response.text`. */
  datatype Response = Response(status: nat, body: String)

  /** The payload of one POST to `/rest/api/2/issue/<key>/worklog`, together
      with the key it is posted to. */
  datatype Worklog = Worklog(issueKey: String, timeSpent: String, started: String)

  const SuccessPrefix: String := "Successfully logged "
  const FailurePrefix: String := "Failed to log work: "

  /** The `(success, message)` pair `log_work` returns for a reply: success
      is exactly status 201 (Created). */
  function Outcome(w: Worklog, reply: Response): (r: (bool, String))
    ensures r.0 <==> reply.status == 201
  {
    if reply.status == 201 then (true, SuccessPrefix + w.timeSpent + " on " + w.issueKey)
    else (false, FailurePrefix + NatToString(reply.status) + " " + reply.body)
  }

  /** `flash(msg, 'success' if success else 'danger')`. */
  function OutcomeNotice(w: Worklog, reply: Response): (n: Notice)
    ensures n.category == Success <==> reply.status == 201
    ensures n.category == Success || n.category == Danger
  {
    var r := Outcome(w, reply);
    Notice(if r.0 then Success else Danger, r.1)
  }

  /** The message alone tells success from failure: only a success message
      starts with "Successfully logged ", only a failure one with "Failed to
      log work: ". */
  lemma MessageTellsOutcome(w: Worklog, reply: Response)
    ensures IsPrefix(SuccessPrefix, Outcome(w, reply).1) <==> reply.status == 201
    ensures IsPrefix(FailurePrefix, Outcome(w, reply).1) <==> reply.status != 201
  {
    var msg := Outcome(w, reply).1;
    if reply.status == 201 {
      assert msg[..|SuccessPrefix|] == SuccessPrefix;
      assert msg[0] == 'S';
    } else {
      assert msg[..|FailurePrefix|] == FailurePrefix;
      assert msg[0] == 'F';
    }
  }

  /** A failure message carries the status code: the digits between the
      prefix and the first following space read back as the status. */
  lemma FailureMessageStatus(w: Worklog, reply: Response)
    requires reply.status != 201
    ensures var rest := Outcome(w, reply).1[|FailurePrefix|..];
      ' ' in rest &&
      var i := FirstIndex(rest, ' ');
      AllDigits(rest[..i]) && DigitsValue(rest[..i]) == reply.status
  {
    var digits := NatToString(reply.status);
    var rest := Outcome(w, reply).1[|FailurePrefix|..];
    assert rest == digits + " " + reply.body;
    assert rest[|digits|] == ' ';
    assert rest[..|digits|] == digits;
    NatToStringRoundTrip(reply.status);
  }

  /** The tracker as the front end sees it: every call of `log_work` posts one
      work log, and the server answers the n-th post with `server(w, n)`. */
  class Tracker {
    const server: (Worklog, nat) -> Response
    var posted: seq<Worklog>

    constructor(server: (Worklog, nat) -> Response)
      ensures this.server == server && posted == []
    {
      this.server := server;
      posted := [];
    }

    /** `log_work(issue_key, time_spent, started)`. */
    method LogWork(issueKey: String, timeSpent: String, started: String) returns (success: bool, msg: String)
      modifies this
      ensures posted == old(posted) + [Worklog(issueKey, timeSpent, started)]
      ensures (success, msg) == Outcome(Worklog(issueKey, timeSpent, started),
                                        server(Worklog(issueKey, timeSpent, started), |old(posted)|))
    {
      var w := Worklog(issueKey, timeSpent, started);
      var reply := server(w, |posted|);
      posted := posted + [w];
      var r := Outcome(w, reply);
      success, msg := r.0, r.1;
    }
  }

  /** The notices a run of posts produces, the i-th post being the
      `base + i`-th the server sees. */
  function Notices(works: seq<Worklog>, server: (Worklog, nat) -> Response, base: nat): (ns: seq<Notice>)
    ensures |ns| == |works|
    ensures forall i :: 0 <= i < |works| ==> ns[i] == OutcomeNotice(works[i], server(works[i], base + i))
  {
    seq(|works|, i requires 0 <= i < |works| => OutcomeNotice(works[i], server(works[i], base + i)))
  }

  /** `for w in works: success, msg = log_work(*w); flash(msg, ...)`: exactly
      one post per work log, in order, and one notice per post. */
  method LogEach(works: seq<Worklog>, tracker: Tracker) returns (flashed: seq<Notice>)
    modifies tracker
    ensures tracker.posted == old(tracker.posted) + works
    ensures flashed == Notices(works, tracker.server, |old(tracker.posted)|)
  {
    flashed := [];
    for i := 0 to |works|
      invariant tracker.posted == old(tracker.posted) + works[..i]
      invariant flashed == Notices(works[..i], tracker.server, |old(tracker.posted)|)
    {
      var w := works[i];
      var success, msg := tracker.LogWork(w.issueKey, w.timeSpent, w.started);
      flashed := flashed + [Notice(if success then Success else Danger, msg)];
      assert works[..i + 1] == works[..i] + [w];
    }
    assert works[..|works|] == works;
  }
}
