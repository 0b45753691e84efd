/** The token stage: the scanned tokens with the `__restrict__` noise token taken out. */
module Tokens {
  import opened Seqs

  /** The one token the generator ignores, an aliasing hint with no bearing on the signature. */
  const Restrict := "__restrict__"

  /** Whether a scanned token is filtered out of the stream. */
  predicate Filter(token: string) {
    token == Restrict
  }

  /** The tokens the generator keeps from a scan, in scan order. */
  function KeptTokens(scanned: seq<string>): seq<string> {
    Keep(scanned, Filter)
  }

  /**
   * The kept tokens are the scanned ones minus every `__restrict__`: none is left, no other
   * token is lost, and exactly the filtered ones are missing.
   */
  lemma KeptTokensSpec(scanned: seq<string>)
    ensures Restrict !in KeptTokens(scanned)
    ensures forall t :: t in KeptTokens(scanned) <==> t in scanned && t != Restrict
    ensures |KeptTokens(scanned)| == |scanned| - Count(scanned, Filter)
  {
    forall t ensures t in KeptTokens(scanned) <==> t in scanned && t != Restrict {
      KeepMembers(scanned, Filter, t);
    }
    KeepCount(scanned, Filter);
  }

  /** Filtering composes over any cut of the scan, so the survivors keep their relative order. */
  lemma KeptTokensAppend(a: seq<string>, b: seq<string>)
    ensures KeptTokens(a + b) == KeptTokens(a) + KeptTokens(b)
  {
    KeepAppend(a, b, Filter);
  }

  /** A scan without `__restrict__` is kept as it is, and the kept stream filters to itself. */
  lemma KeptTokensStable(scanned: seq<string>)
    ensures Restrict !in scanned ==> KeptTokens(scanned) == scanned
    ensures KeptTokens(KeptTokens(scanned)) == KeptTokens(scanned)
  {
    if Restrict !in scanned {
      KeepAll(scanned, Filter);
    }
    KeepIdempotent(scanned, Filter);
  }

  /** The scanning loop: every token that is not filtered is appended to `token`. */
  method FilterTokens(scanned: seq<string>) returns (token: seq<string>)
    ensures token == KeptTokens(scanned)
  {
    token := [];
    var i := 0;
    while i < |scanned|
      invariant 0 <= i <= |scanned|
      invariant token == Keep(scanned[..i], Filter)
    {
      assert scanned[..i + 1][..i] == scanned[..i];
      if !Filter(scanned[i]) {
        token := token + [scanned[i]];
      }
      i := i + 1;
    }
    assert scanned[..i] == scanned;
  }
}
