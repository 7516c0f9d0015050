/**
 * The admin's challenge list: the search, status and difficulty filters
 * over the loaded challenges, and the confirmation asked before a delete.
 */
module ChallengeManagementModal {
  import opened Strings
  import Sequences

  /** A challenge row as the list holds it. */
  datatype ChallengeRow = ChallengeRow(id: int, title: string, description: string, isPublished: bool, difficulty: string, totalAttempts: int)

  /** Case-insensitive substring search on the title or the description. */
  predicate MatchesSearch(c: ChallengeRow, term: string)
  {
    Contains(Lower(c.title), Lower(term)) || Contains(Lower(c.description), Lower(term))
  }

  /** The status filter: `all`, `published` or `unpublished`; any other value shows nothing. */
  predicate MatchesStatus(c: ChallengeRow, status: string)
  {
    status == "all" || (status == "published" && c.isPublished) || (status == "unpublished" && !c.isPublished)
  }

  /** The difficulty filter: `all` or an exact match. */
  predicate MatchesDifficulty(c: ChallengeRow, difficulty: string)
  {
    difficulty == "all" || c.difficulty == difficulty
  }

  predicate Shown(c: ChallengeRow, term: string, status: string, difficulty: string)
  {
    MatchesSearch(c, term) && MatchesStatus(c, status) && MatchesDifficulty(c, difficulty)
  }

  /** `filteredChallenges`: the challenges passing all three filters, in list order. */
  function Filtered(cs: seq<ChallengeRow>, term: string, status: string, difficulty: string): (r: seq<ChallengeRow>)
    ensures Sequences.IsSubsequence(r, cs)
    ensures forall k :: 0 <= k < |r| ==> Shown(r[k], term, status, difficulty)
    ensures forall k :: 0 <= k < |cs| && Shown(cs[k], term, status, difficulty) ==> cs[k] in r
  {
    Sequences.Filter(cs, (c: ChallengeRow) => Shown(c, term, status, difficulty))
  }

  /** A challenge is listed exactly when it is loaded and passes the search, status and difficulty filters. */
  lemma FilteredIff(cs: seq<ChallengeRow>, term: string, status: string, difficulty: string, c: ChallengeRow)
    ensures c in Filtered(cs, term, status, difficulty) <==>
      c in cs && MatchesSearch(c, term) && MatchesStatus(c, status) && MatchesDifficulty(c, difficulty)
  {
    var r := Filtered(cs, term, status, difficulty);
    if c in r {
      Sequences.SubsequenceMembers(r, cs);
    }
  }

  /** An empty search with both filters at `all` lists every challenge. */
  lemma EmptySearchListsAll(cs: seq<ChallengeRow>)
    ensures Filtered(cs, "", "all", "all") == cs
  {
    assert Lower("") == "";
    forall k | 0 <= k < |cs| ensures Shown(cs[k], "", "all", "all") {
      ContainsEmpty(Lower(cs[k].title));
    }
    Sequences.FilterAll(cs, (c: ChallengeRow) => Shown(c, "", "all", "all"));
  }

  /** The published and unpublished views split every difficulty's searched challenges between them. */
  lemma StatusesPartition(c: ChallengeRow, term: string, difficulty: string)
    ensures Shown(c, term, "all", difficulty) <==>
      Shown(c, term, "published", difficulty) || Shown(c, term, "unpublished", difficulty)
    ensures !(Shown(c, term, "published", difficulty) && Shown(c, term, "unpublished", difficulty))
  {
  }

  /** The text of the confirmation before a delete. */
  function ConfirmMessage(c: ChallengeRow): (msg: string)
  {
    if c.totalAttempts > 0 then
      "\"" + c.title + ("\" has " + (IntToString(c.totalAttempts) + " submission(s)")
        + ". Are you sure you want to delete it? This action cannot be undone.")
    else
      "Are you sure you want to delete \"" + c.title + "\"? This action cannot be undone."
  }

  /** The confirmation warns about submissions, with their count, exactly when the challenge has had attempts. */
  lemma ConfirmMentionsAttempts(c: ChallengeRow)
    ensures c.totalAttempts > 0 ==> Contains(ConfirmMessage(c), IntToString(c.totalAttempts) + " submission(s)")
    ensures StartsWith(ConfirmMessage(c), "Are you sure") <==> c.totalAttempts <= 0
    ensures Contains(ConfirmMessage(c), c.title)
  {
    if c.totalAttempts > 0 {
      WarningMessage(c.title, IntToString(c.totalAttempts) + " submission(s)", ". Are you sure you want to delete it? This action cannot be undone.");
    } else {
      PlainMessage(c.title, "\"? This action cannot be undone.");
    }
  }

  /** The message with a count starts with a quote and contains the title and the count. */
  lemma WarningMessage(title: string, count: string, tail: string)
    ensures StartsWith("\"" + title + ("\" has " + count + tail), "\"")
    ensures !StartsWith("\"" + title + ("\" has " + count + tail), "Are you sure")
    ensures Contains("\"" + title + ("\" has " + count + tail), title)
    ensures Contains("\"" + title + ("\" has " + count + tail), count)
  {
    var msg := "\"" + title + ("\" has " + count + tail);
    ContainsSelfPart("\"", title, "\" has " + count + tail);
    assert msg == ("\"" + title + "\" has ") + count + tail;
    ContainsSelfPart("\"" + title + "\" has ", count, tail);
    assert msg[0] == '"';
  }

  /** The message without a count starts with the question and contains the title. */
  lemma PlainMessage(title: string, tail: string)
    ensures StartsWith("Are you sure you want to delete \"" + title + tail, "Are you sure")
    ensures Contains("Are you sure you want to delete \"" + title + tail, title)
  {
    var head := "Are you sure you want to delete \"";
    assert (head + title + tail)[..12] == head[..12];
    ContainsSelfPart(head, title, tail);
  }
}
