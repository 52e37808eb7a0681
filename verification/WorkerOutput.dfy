/** What the output of a worker that exited tells about why. */
module WorkerOutput {
  import opened Text

  predicate ContainsAny(s: string, tokens: seq<string>) {
    exists i :: 0 <= i < |tokens| && Contains(s, tokens[i])
  }

  predicate IsAddressConflict(output: string) {
    var text := Lower(output);
    if Contains(text, "eaddrinuse") then true
    else if Contains(text, "already in use") then ContainsAny(text, ["address", "port", "bind"])
    else Contains(text, "bind") && ContainsAny(text, ["errno = 98", "errno 98"])
  }

  predicate IsStoreLockConflict(output: string) {
    var text := Lower(output);
    && Contains(text, "lock file:")
    && Contains(text, "resource temporarily unavailable")
    && ContainsAny(text, ["cannot open the key/value store", "kv store error"])
  }

  // ----- the same, place by place -----

  /** `a` is `b`, or `b` as a capital. */
  predicate SameLetter(a: char, b: char) {
    a == b || ('A' <= a <= 'Z' && b as int == a as int + 32)
  }

  /** `word`, in whatever case, from place `i` on. */
  predicate MentionedAt(output: string, word: string, i: nat) {
    i + |word| <= |output| && forall k :: 0 <= k < |word| ==> SameLetter(output[i + k], word[k])
  }

  ghost predicate Mentions(output: string, word: string) {
    exists i: nat :: MentionedAt(output, word, i)
  }

  predicate NoCapitals(word: string) {
    forall k :: 0 <= k < |word| ==> !('A' <= word[k] <= 'Z')
  }

  lemma LowerAt(output: string, word: string, i: nat)
    requires NoCapitals(word) && i <= |output|
    ensures OccursAt(word, Lower(output), i) <==> MentionedAt(output, word, i)
  {
    var text := Lower(output);
    if i + |word| <= |output| {
      var there := text[i..i + |word|];
      assert word <= text[i..] <==> word == there;
      assert forall k :: 0 <= k < |word| ==> there[k] == LowerChar(output[i + k]);
      forall k | 0 <= k < |word| ensures LowerChar(output[i + k]) == word[k] <==> SameLetter(output[i + k], word[k]) {
        LowerLetter(output[i + k], word[k]);
      }
    }
  }

  lemma LowerLetter(a: char, b: char)
    requires !('A' <= b <= 'Z')
    ensures LowerChar(a) == b <==> SameLetter(a, b)
  {
  }

  lemma LowerMentions(output: string, word: string)
    requires NoCapitals(word)
    ensures Contains(Lower(output), word) <==> Mentions(output, word)
  {
    hide OccursAt, MentionedAt, NoCapitals;
    forall i: nat | i <= |output| ensures OccursAt(word, Lower(output), i) <==> MentionedAt(output, word, i) {
      LowerAt(output, word, i);
    }
    forall i: nat | MentionedAt(output, word, i) ensures i <= |output| {
      MentionedInside(output, word, i);
    }
  }

  lemma MentionedInside(output: string, word: string, i: nat)
    requires MentionedAt(output, word, i)
    ensures i <= |output|
  {
  }

  /** An address conflict is one that names EADDRINUSE; or something already in use that is an address,
      a port or a bind; or a bind with error 98. Case does not matter. */
  lemma AddressConflictIs(output: string)
    ensures IsAddressConflict(output) <==>
            || Mentions(output, "eaddrinuse")
            || (Mentions(output, "already in use")
                && (Mentions(output, "address") || Mentions(output, "port") || Mentions(output, "bind")))
            || (Mentions(output, "bind") && (Mentions(output, "errno = 98") || Mentions(output, "errno 98")))
  {
    hide Mentions, Contains, ContainsAny;
    LowerMentions(output, "eaddrinuse");
    LowerMentions(output, "already in use");
    LowerMentions(output, "address");
    LowerMentions(output, "port");
    LowerMentions(output, "bind");
    LowerMentions(output, "errno = 98");
    LowerMentions(output, "errno 98");
    AnyOfThree(Lower(output), "address", "port", "bind");
    AnyOfTwo(Lower(output), "errno = 98", "errno 98");
  }

  lemma AnyOfTwo(s: string, a: string, b: string)
    ensures ContainsAny(s, [a, b]) <==> Contains(s, a) || Contains(s, b)
  {
    hide Contains;
    assert [a, b][0] == a && [a, b][1] == b;
  }

  lemma AnyOfThree(s: string, a: string, b: string, c: string)
    ensures ContainsAny(s, [a, b, c]) <==> Contains(s, a) || Contains(s, b) || Contains(s, c)
  {
    hide Contains;
    assert [a, b, c][0] == a && [a, b, c][1] == b && [a, b, c][2] == c;
  }

  lemma LockWords()
    ensures NoCapitals("lock file:") && NoCapitals("resource temporarily unavailable")
    ensures NoCapitals("cannot open the key/value store") && NoCapitals("kv store error")
  {
  }

  /** A conflict over the store lock names the lock file, says that it is unavailable for now, and
      that it is the store which cannot be opened. Case does not matter. */
  lemma StoreLockConflictIs(output: string)
    ensures IsStoreLockConflict(output) <==>
            && Mentions(output, "lock file:") && Mentions(output, "resource temporarily unavailable")
            && (Mentions(output, "cannot open the key/value store") || Mentions(output, "kv store error"))
  {
    hide Mentions, Contains, ContainsAny, NoCapitals;
    LockWords();
    LowerMentions(output, "lock file:");
    LowerMentions(output, "resource temporarily unavailable");
    LowerMentions(output, "cannot open the key/value store");
    LowerMentions(output, "kv store error");
    AnyOfTwo(Lower(output), "cannot open the key/value store", "kv store error");
  }

  datatype Reason = Unread | AddressConflict | LockConflict | Unknown

  /** An output that tells of both conflicts tells of the address. None: it could not be read. */
  ghost function ReasonIn(output: Option<string>): Reason {
    if output.None? then Unread
    else if IsAddressConflict(output.value) then AddressConflict
    else if IsStoreLockConflict(output.value) then LockConflict
    else Unknown
  }
}
