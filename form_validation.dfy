/**
 * What the account forms of the frontend share: the entries of the error
 * objects their validators fill, the rule that typing into a field clears its error,
 * the two email patterns they test, and the fallback for a server's
 * error message.
 */
module FormValidation {
  import opened Wrappers
  import opened Strings

  /**
   * One entry of an `errors` object: `None` when the key is absent,
   * otherwise the message shown (`''` once cleared).
   */
  type Slot = Option<string>

  /** `errors[name]` is truthy: the key is present with a non-empty message. */
  predicate IsSet(slot: Slot)
  {
    slot.Some? && slot.value != ""
  }

  /**
   * The error half of every `handleChange`: a set error is overwritten
   * with `''`; a missing or already empty entry is left as it is.
   */
  function Cleared(slot: Slot): (r: Slot)
    ensures !IsSet(r)
    ensures r.Some? <==> slot.Some?
    ensures !IsSet(slot) ==> r == slot
  {
    if IsSet(slot) then Some("") else slot
  }

  /** Clearing twice is clearing once. */
  lemma ClearedIdempotent(slot: Slot)
    ensures Cleared(Cleared(slot)) == Cleared(slot)
  {
  }

  /**
   * The message of one field's `if (...) ... else if (...) ...` check: the
   * first failing condition's, or none when both pass.
   */
  function Rule(missing: bool, missingMessage: string, invalid: bool, invalidMessage: string): (e: Slot)
    ensures e.None? <==> !missing && !invalid
    ensures e.Some? ==> e.value == (if missing then missingMessage else invalidMessage)
  {
    if missing then Some(missingMessage) else if invalid then Some(invalidMessage) else None
  }

  /** The loose pattern matched with its `@` at `at` and the `.` it needs at `dot`. */
  predicate LooseMatch(s: string, at: int, dot: int)
  {
    1 <= at && at + 2 <= dot && dot + 2 <= |s| && s[at] == '@' && s[dot] == '.'
    && !IsSpace(s[at - 1]) && !IsSpace(s[dot + 1]) && forall k :: at < k < dot ==> !IsSpace(s[k])
  }

  /**
   * `/\S+@\S+\.\S+/.test(s)`, unanchored: a non-space character right
   * before some `@`, a run of one or more non-space characters after it up
   * to a `.`, and a non-space character right after that `.`.
   */
  predicate LooseEmail(s: string)
  {
    exists at, dot :: 0 <= at < dot < |s| && LooseMatch(s, at, dot)
  }

  /** The anchored pattern's `@` is at `at`: something before it, no other `@`, and a `.` after it that is neither its first nor the last character. */
  predicate StrictAt(s: string, at: int)
  {
    1 <= at < |s| && s[at] == '@'
    && (forall k :: 0 <= k < |s| && k != at ==> s[k] != '@')
    && exists dot :: at + 2 <= dot && dot + 2 <= |s| && s[dot] == '.'
  }

  /** `/^[^\s@]+@[^\s@]+\.[^\s@]+$/.test(s)`: no whitespace anywhere and one `@` placed as `StrictAt` says. */
  predicate StrictEmail(s: string)
  {
    (forall k :: 0 <= k < |s| ==> !IsSpace(s[k])) && exists at :: 0 <= at < |s| && StrictAt(s, at)
  }

  /** Every address the anchored pattern accepts, the loose one accepts too. */
  lemma StrictIsLoose(s: string)
    requires StrictEmail(s)
    ensures LooseEmail(s)
  {
    var at :| 0 <= at < |s| && StrictAt(s, at);
    var dot :| at + 2 <= dot && dot + 2 <= |s| && s[dot] == '.';
    assert LooseMatch(s, at, dot);
  }

  /** The loose pattern lets a second `@` through; the anchored one does not. */
  lemma LooseAcceptsDoubleAt()
    ensures LooseEmail("a@@b.c")
    ensures !StrictEmail("a@@b.c")
  {
    var s := "a@@b.c";
    assert forall k :: 1 < k < 4 ==> !IsSpace(s[k]);
    assert LooseMatch(s, 1, 4);
    assert s[1] == '@' && s[2] == '@';
  }

  /** An address either pattern accepts is not blank, so its `required` check always passes. */
  lemma EmailIsNonBlank(s: string)
    requires LooseEmail(s) || StrictEmail(s)
    ensures !Blank(s) && Trim(s) != ""
  {
    if StrictEmail(s) {
      StrictIsLoose(s);
    }
    var at, dot :| 0 <= at < dot < |s| && LooseMatch(s, at, dot);
    TrimEmptyIff(s);
  }

  /** An address the anchored pattern accepts has no surrounding whitespace, so trimming it changes nothing. */
  lemma StrictIsTrimmed(s: string)
    requires StrictEmail(s)
    ensures Trim(s) == s
  {
    TrimmedIsFixed(s);
  }

  /** `error.response?.data?.<field> || fallback`: the server's message when it sent a non-empty one. */
  function ServerMessage(reply: Option<string>, fallback: string): (r: string)
    ensures reply.Some? && reply.value != "" ==> r == reply.value
    ensures reply.None? || reply.value == "" ==> r == fallback
  {
    if reply.Some? && reply.value != "" then reply.value else fallback
  }
}
