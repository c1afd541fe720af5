/** The content script's message listener and its module-level `retryCount`.
    The counter lives as long as the page does, so it is shared by every
    "extract" message the page receives. */
module Listener {
  import opened Wrappers
  import opened Extractor

  const MaxRetries: nat := 3

  /** The first extraction found no field and the counter still allows a retry. */
  predicate ShouldRetry(retryCount: nat, first: Envelope) {
    first == Error(FieldsNotFound) && retryCount < MaxRetries
  }

  /** The counter after one "extract" message whose first extraction gave `first`. */
  function NextCount(retryCount: nat, first: Envelope): nat {
    if ShouldRetry(retryCount, first) then retryCount + 1 else 0
  }

  /** The counter never leaves 0..MaxRetries. */
  lemma NextCountBounded(retryCount: nat, first: Envelope)
    requires retryCount <= MaxRetries
    ensures NextCount(retryCount, first) <= MaxRetries
  {
  }

  /** The counter after a series of messages whose first extractions gave `firsts`. */
  function CountAfter(retryCount: nat, firsts: seq<Envelope>): nat
    decreases |firsts|
  {
    if firsts == [] then retryCount
    else CountAfter(NextCount(retryCount, firsts[0]), firsts[1..])
  }

  function Misses(n: nat): seq<Envelope> {
    seq(n, _ => Error(FieldsNotFound))
  }

  /** On a page where no field ever appears, message after message, the
      counter runs 1, 2, 3 and then falls back to 0: three messages in a row
      get a retry, the fourth gets its own "Fields not found" at once. */
  lemma {:induction false} MissesCycle(retryCount: nat, n: nat)
    requires retryCount <= MaxRetries
    ensures CountAfter(retryCount, Misses(n)) == (retryCount + n) % (MaxRetries + 1)
    decreases n
  {
    if n > 0 {
      assert Misses(n)[0] == Error(FieldsNotFound);
      assert Misses(n)[1..] == Misses(n - 1);
      MissesCycle(NextCount(retryCount, Error(FieldsNotFound)), n - 1);
    }
  }

  class MessageListener {
    var retryCount: nat

    ghost predicate Valid()
      reads this
    {
      retryCount <= MaxRetries
    }

    /** The script is loaded with `retryCount = 0`. */
    constructor ()
      ensures Valid() && retryCount == 0
    {
      retryCount := 0;
    }

    /** Handle one message. For `action == "extract"`: extract from the page as
        it is (`first`); if that found no field and the counter allows it,
        count up and extract once more from the page as it is `delay`
        milliseconds later (`later`), answering with that second result
        whatever it is; otherwise reset the counter and answer with the first
        result. Any other action gets no answer and changes nothing. */
    method OnMessage(action: string, first: Page, later: Page)
        returns (response: Option<Envelope>, delay: nat, extractions: nat)
      requires Valid()
      modifies this
      ensures Valid()
      ensures extractions <= 2
      ensures action != "extract" ==>
                response == None && delay == 0 && extractions == 0 && retryCount == old(retryCount)
      ensures action == "extract" ==>
                && retryCount == NextCount(old(retryCount), Dispatch(first))
                && (ShouldRetry(old(retryCount), Dispatch(first)) ==>
                      response == Some(Dispatch(later)) && delay == 1000 * retryCount && extractions == 2)
                && (!ShouldRetry(old(retryCount), Dispatch(first)) ==>
                      response == Some(Dispatch(first)) && delay == 0 && extractions == 1)
    {
      response, delay, extractions := None, 0, 0;
      if action == "extract" {
        var r := ExtractData(first);
        extractions := 1;
        if r.Error? && r.error == FieldsNotFound && retryCount < MaxRetries {
          retryCount := retryCount + 1;
          delay := 1000 * retryCount;
          var again := ExtractData(later);
          extractions := 2;
          response := Some(again);
        } else {
          retryCount := 0;
          response := Some(r);
        }
      }
    }
  }
}
