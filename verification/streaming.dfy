/** The streaming loop of `rag_streaming`: chunks are passed on as they
    arrive, `None` deltas are skipped, and the loop stops at the first chunk
    after which the text so far contains the refusal phrase. */
module Streaming {
  import opened Wrappers
  import opened Seqs
  import opened Text

  const StopPhrase := "The provided circulars do not contain this information."

  /** The non-`None` deltas of the stream, in order. */
  function Deltas(events: seq<Option<string>>): seq<string>
  {
    if |events| == 0 then []
    else Deltas(events[..|events| - 1]) + (match events[|events| - 1] case Some(c) => [c] case None => [])
  }

  lemma {:induction false} DeltasAppend(a: seq<Option<string>>, b: seq<Option<string>>)
    ensures Deltas(a + b) == Deltas(a) + Deltas(b)
    decreases |b|
  {
    if |b| == 0 {
      assert a + b == a;
    } else {
      DeltasAppend(a, b[..|b| - 1]);
      assert (a + b)[..|a + b| - 1] == a + b[..|b| - 1];
    }
  }

  /** One more event adds its delta, if any. */
  lemma DeltasStep(events: seq<Option<string>>, i: nat)
    requires i < |events|
    ensures Deltas(events[..i + 1]) == Deltas(events[..i]) + (match events[i] case Some(c) => [c] case None => [])
  {
    assert events[..i + 1][..i] == events[..i];
  }

  /** The stream was cut right after `k` chunks: `k` is the first count whose
      text holds the phrase, or every chunk was passed on and no earlier count held it. */
  ghost predicate CutAt(cs: seq<string>, phrase: string, k: nat)
  {
    && k <= |cs|
    && (k < |cs| ==> k >= 1 && IsSubstring(phrase, Flatten(cs[..k])))
    && (forall j :: 1 <= j < k ==> !IsSubstring(phrase, Flatten(cs[..j])))
  }

  /** Where the loop stops on a chunk list, as a function. */
  function Cut(cs: seq<string>, phrase: string, k: nat): (n: nat)
    requires 1 <= k <= |cs| + 1
    ensures n <= |cs| && (k <= |cs| ==> k <= n)
    decreases |cs| + 1 - k
  {
    if k > |cs| then |cs|
    else if IsSubstring(phrase, Flatten(cs[..k])) then k
    else Cut(cs, phrase, k + 1)
  }

  /** The cut point is unique: two counts that both satisfy the cut rule agree. */
  lemma CutUnique(cs: seq<string>, phrase: string, k: nat, k': nat)
    requires CutAt(cs, phrase, k) && CutAt(cs, phrase, k')
    ensures k == k'
  {
  }

  lemma {:induction false} CutIsCutAt(cs: seq<string>, phrase: string, k: nat)
    requires 1 <= k <= |cs| + 1
    requires forall j :: 1 <= j < k ==> !IsSubstring(phrase, Flatten(cs[..j]))
    ensures CutAt(cs, phrase, Cut(cs, phrase, k))
    decreases |cs| + 1 - k
  {
    if k <= |cs| && !IsSubstring(phrase, Flatten(cs[..k])) {
      CutIsCutAt(cs, phrase, k + 1);
    }
  }

  /** The loop: pass each non-`None` delta on, accumulate it, and stop once the
      accumulated text contains `StopPhrase`. `sent` is what the caller receives. */
  method StreamReply(events: seq<Option<string>>) returns (sent: seq<string>, output: string)
    ensures output == Flatten(sent)
    ensures sent <= Deltas(events)
    ensures CutAt(Deltas(events), StopPhrase, |sent|)
    ensures |sent| < |Deltas(events)| ==> IsSubstring(StopPhrase, output)
    ensures |sent| == Cut(Deltas(events), StopPhrase, 1)
  {
    sent := [];
    output := "";
    var i := 0;
    while i < |events|
      invariant 0 <= i <= |events|
      invariant sent == Deltas(events[..i])
      invariant output == Flatten(sent)
      invariant forall j :: 1 <= j <= |sent| ==> !IsSubstring(StopPhrase, Flatten(sent[..j]))
      decreases |events| - i
    {
      DeltasStep(events, i);
      match events[i] {
        case None =>
        case Some(chunk) =>
          var prev := sent;
          sent := prev + [chunk];
          output := output + chunk;
          SentOneMore(prev, chunk, StopPhrase);
          if IsSubstring(StopPhrase, output) {
            PrefixOfDeltas(events, i + 1);
            Stopped(Deltas(events), sent);
            return;
          }
      }
      i := i + 1;
    }
    assert events[..|events|] == events;
    Stopped(Deltas(events), sent);
  }

  /** Passing one more chunk on: the text grows by the chunk, and the earlier
      counts keep their texts. */
  lemma SentOneMore(prev: seq<string>, chunk: string, phrase: string)
    requires forall j :: 1 <= j <= |prev| ==> !IsSubstring(phrase, Flatten(prev[..j]))
    ensures Flatten(prev + [chunk]) == Flatten(prev) + chunk
    ensures (prev + [chunk])[..|prev| + 1] == prev + [chunk]
    ensures forall j :: 1 <= j <= |prev| ==> !IsSubstring(phrase, Flatten((prev + [chunk])[..j]))
  {
    FlattenAppend(prev, [chunk]);
    assert Flatten([chunk]) == chunk + Flatten([]);
    forall j | 1 <= j <= |prev| ensures (prev + [chunk])[..j] == prev[..j] {
    }
  }

  /** The loop's exit condition pins its stopping point to the cut rule. */
  lemma Stopped(cs: seq<string>, sent: seq<string>)
    requires sent <= cs
    requires forall j :: 1 <= j < |sent| ==> !IsSubstring(StopPhrase, Flatten(sent[..j]))
    requires |sent| < |cs| ==> |sent| >= 1 && IsSubstring(StopPhrase, Flatten(sent))
    ensures CutAt(cs, StopPhrase, |sent|)
    ensures |sent| == Cut(cs, StopPhrase, 1)
  {
    assert cs[..|sent|] == sent;
    forall j | 1 <= j < |sent| ensures cs[..j] == sent[..j] {
    }
    CutIsCutAt(cs, StopPhrase, 1);
    CutUnique(cs, StopPhrase, |sent|, Cut(cs, StopPhrase, 1));
  }

  lemma PrefixOfDeltas(events: seq<Option<string>>, i: nat)
    requires i <= |events|
    ensures Deltas(events[..i]) <= Deltas(events)
  {
    assert events == events[..i] + events[i..];
    DeltasAppend(events[..i], events[i..]);
  }
}
