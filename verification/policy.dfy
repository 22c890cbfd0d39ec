/** The decision whether a streamed submission is shared: `verify_submission`, the
    catch-up window over the submissions seen at startup, and the shipped title rule. */
module Policy {
  import opened Common

  /** The fields of a Reddit submission the bot reads. */
  datatype Submission = Submission(id: string, permalink: string, title: string, url: string, saved: bool)

  /** `submission in submissions`: praw compares submissions by their id. */
  predicate InById(s: Submission, submissions: seq<Submission>)
  {
    exists k :: 0 <= k < |submissions| && submissions[k].id == s.id
  }

  /** `recent[:max(0, CATCHUP_LIMIT)]`: a slice bound past the end stops at the end. */
  function Catchup(recent: seq<Submission>, limit: int): (r: seq<Submission>)
    ensures |r| == Min(|recent|, Max(0, limit))
    ensures r == recent[..|r|]
    ensures forall k :: 0 <= k < |r| ==> r[k] == recent[k]
    ensures limit <= 0 ==> r == []
    ensures 0 <= limit <= |recent| ==> |r| == limit
    ensures |recent| <= limit ==> r == recent
  {
    recent[..Min(|recent|, Max(0, limit))]
  }

  /** A submission seen at startup that is outside the catch-up window. */
  predicate PastCatchup(s: Submission, recent: seq<Submission>, limit: int)
  {
    InById(s, recent) && !InById(s, Catchup(recent, limit))
  }

  /** What `verify_submission` returns: whether to skip, and the reason to print. */
  datatype Verdict = Verdict(toSkip: bool, reason: Option<string>)

  const InvalidTitleReason := "title doesn't conform to formatting rule"
  const AlreadySharedReason := "already shared"

  /** `verify_submission`, with `titleOk` standing for `re.search(TITLE_REGEX, title)`
      finding a match.  The checks are tried in a fixed order: past catch-up (silent),
      then the title, then the saved flag. */
  function VerifySubmission(s: Submission, recent: seq<Submission>, limit: int,
                            titleOk: string -> bool): (v: Verdict)
    ensures v.toSkip <==> PastCatchup(s, recent, limit) || !titleOk(s.title) || s.saved
    ensures !v.toSkip ==> v.reason == None
    ensures v.reason == None ==> !v.toSkip || PastCatchup(s, recent, limit)
    ensures v.reason == Some(AlreadySharedReason) ==> titleOk(s.title)
  {
    if PastCatchup(s, recent, limit) then Verdict(true, None)
    else if !titleOk(s.title) then Verdict(true, Some(InvalidTitleReason))
    else if s.saved then Verdict(true, Some(AlreadySharedReason))
    else Verdict(false, None)
  }

  /** The reason priority: past catch-up is silent; otherwise a bad title is reported
      whatever the saved flag; otherwise a saved submission is "already shared". */
  lemma {:induction false} ReasonPriority(s: Submission, recent: seq<Submission>, limit: int, titleOk: string -> bool)
    ensures var v := VerifySubmission(s, recent, limit, titleOk);
            && (PastCatchup(s, recent, limit) ==> v == Verdict(true, None))
            && (!PastCatchup(s, recent, limit) && !titleOk(s.title)
                ==> v == Verdict(true, Some(InvalidTitleReason)))
            && (!PastCatchup(s, recent, limit) && titleOk(s.title) && s.saved
                ==> v == Verdict(true, Some(AlreadySharedReason)))
  {
  }

  /** Ids that occur once each. */
  predicate DistinctIds(recent: seq<Submission>)
  {
    forall i, j :: 0 <= i < j < |recent| ==> recent[i].id != recent[j].id
  }

  /** With distinct ids, the submission at index `i` of the startup list is past
      catch-up exactly when `i` is at least `max(0, CATCHUP_LIMIT)`. */
  lemma {:induction false} CatchupIndex(recent: seq<Submission>, limit: int, i: int)
    requires DistinctIds(recent) && 0 <= i < |recent|
    ensures PastCatchup(recent[i], recent, limit) <==> i >= Max(0, limit)
  {
    var window := Catchup(recent, limit);
    assert InById(recent[i], recent);
    if i < Max(0, limit) {
      assert window[i] == recent[i];
    } else {
      forall k | 0 <= k < |window|
        ensures window[k].id != recent[i].id
      {
        assert window[k] == recent[k] && k < i;
      }
    }
  }

  /** A negative CATCHUP_LIMIT behaves like 0: every submission seen at startup is
      past catch-up. */
  lemma {:induction false} NegativeLimitIsZero(s: Submission, recent: seq<Submission>, limit: int)
    requires limit < 0
    ensures PastCatchup(s, recent, limit) <==> PastCatchup(s, recent, 0)
    ensures PastCatchup(s, recent, limit) <==> InById(s, recent)
  {
    assert Catchup(recent, limit) == [];
  }

  /** A submission that was not among those seen at startup is never past catch-up. */
  lemma {:induction false} NewNeverPastCatchup(s: Submission, recent: seq<Submission>, limit: int)
    requires !InById(s, recent)
    ensures !PastCatchup(s, recent, limit)
  {
  }

  // ---------------------------------------------------------------------------
  // The shipped title rule `^\[.+?\]`.

  /** The meaning of `re.search(r"^\[.+?\]", t)`: the title opens with `[`, and a later
      `]` closes it after at least one character, none of them a line break (`.` does
      not match a newline; the lazy `+?` may take a `]` too). */
  predicate BracketTagged(t: string)
  {
    |t| >= 3 && t[0] == '[' && exists j :: 2 <= j < |t| && t[j] == ']' && NoNewline(t, 1, j)
  }

  predicate NoNewline(t: string, from: int, to: int)
    requires 0 <= from <= to <= |t|
  {
    forall k :: from <= k < to ==> t[k] != '\n'
  }

  /** The matcher: after `[` and one character, scans for the first `]` and fails at
      the first line break. */
  function MatchesBracketTag(t: string): (r: bool)
  {
    |t| >= 3 && t[0] == '[' && t[1] != '\n' && ScanClose(t, 2)
  }

  function ScanClose(t: string, j: nat): bool
    decreases |t| - j
  {
    j < |t| && (t[j] == ']' || (t[j] != '\n' && ScanClose(t, j + 1)))
  }

  /** The scan from `j` succeeds exactly when some `]` at or after `j` has no line
      break between `j` and it. */
  lemma {:induction false} ScanCloseMeans(t: string, j: nat)
    requires j <= |t|
    ensures ScanClose(t, j) <==> exists m :: j <= m < |t| && t[m] == ']' && NoNewline(t, j, m)
    decreases |t| - j
  {
    if j < |t| {
      ScanCloseMeans(t, j + 1);
      if t[j] == ']' {
        assert NoNewline(t, j, j);
      } else if t[j] != '\n' {
        if ScanClose(t, j + 1) {
          var m :| j + 1 <= m < |t| && t[m] == ']' && NoNewline(t, j + 1, m);
          assert NoNewline(t, j, m);
        }
        if exists m :: j <= m < |t| && t[m] == ']' && NoNewline(t, j, m) {
          var m :| j <= m < |t| && t[m] == ']' && NoNewline(t, j, m);
          assert m > j;
          assert NoNewline(t, j + 1, m);
        }
      }
    }
  }

  /** The matcher accepts exactly the titles the pattern matches. */
  lemma {:induction false} MatchesBracketTagIsPattern(t: string)
    ensures MatchesBracketTag(t) <==> BracketTagged(t)
  {
    if |t| >= 3 && t[0] == '[' {
      ScanCloseMeans(t, 2);
      if MatchesBracketTag(t) {
        var m :| 2 <= m < |t| && t[m] == ']' && NoNewline(t, 2, m);
        assert NoNewline(t, 1, m);
      }
      if BracketTagged(t) {
        var m :| 2 <= m < |t| && t[m] == ']' && NoNewline(t, 1, m);
        assert t[1] != '\n';
        assert NoNewline(t, 2, m);
      }
    }
  }

  /** Examples of the rule: a flair-like tag is accepted, an empty or unclosed one is
      not, and neither is a tag broken by a line break. */
  lemma BracketTagExamples()
    ensures MatchesBracketTag("[Comedy] A show")
    ensures MatchesBracketTag("[]]")
    ensures !MatchesBracketTag("[] A show")
    ensures !MatchesBracketTag("[Comedy A show")
    ensures !MatchesBracketTag("[a\n]")
    ensures !MatchesBracketTag("A show [Comedy]")
  {
  }
}
