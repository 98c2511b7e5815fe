/**
  For exactly which values the interner may be trusted, under each hash and geometry.
 */
module CacheExact {
  import opened Bytes
  import opened Records
  import opened Symbols
  import opened InternerModel
  import opened ConcurrentInterner
  import opened ConcurrentSafety
  import opened ConcurrentTheorems
  import opened CacheWitness

  /** Every symbol returned for `v` names `v`. */
  ghost predicate Truthful(s: State, v: Str) {
    forall a | (v, a) in s.returned :: 0 < a < U32_SIZE && Resolve(Strings(s), a) == Some(v)
  }

  lemma TrustedIsTruthful(cfg: Config, s0: State, moves: seq<(nat, Move)>, v: Str)
    requires Init(cfg, s0) && Run(cfg, s0, moves).Some? && Trusted(cfg, s0.mended, v) && !IsStatic(v)
    ensures Truthful(Run(cfg, s0, moves).value, v)
  {
    hide Init, Run, Trusted, ShardsOk, ThreadOk, Interned;
    InitInv(cfg, s0);
    RunKeeps(cfg, s0, moves);
    var s := Run(cfg, s0, moves).value;
    forall a | (v, a) in s.returned ensures 0 < a < U32_SIZE && Resolve(Strings(s), a) == Some(v) {
      assert Interned(cfg, s.shards, (v, a).0, (v, a).1);
      InternedResolves(cfg, s, v, a);
    }
  }

  lemma InternedResolves(cfg: Config, s: State, v: Str, a: nat)
    requires Inv(cfg, s) && Interned(cfg, s.shards, v, a) && !IsStatic(v)
    ensures 0 < a < U32_SIZE && Resolve(Strings(s), a) == Some(v)
  {
    hide ShardsOk, ThreadOk, ReturnedOk;
    var i, k := Position(cfg, s.mem, s.shards, v, a);
    PackRoundTrip(i, k);
  }

  /**
    Under a given hash and geometry, the symbols returned for a value name it in
    every state of every run if and only if the value is cache safe, or the low 32
    bits of the hash tell it from the value shifted by four, or no region has room for
    either of the two.
   */
  lemma TruthfulIff(cfg: Config, v: Str)
    requires Configured(cfg) && Storable(v)
    ensures (CacheSafe(v) || cfg.hash(v) % U32_SIZE != cfg.hash(Shifted(v)) % U32_SIZE || Padded(|v|) > cfg.region) <==>
            forall s0, moves | Init(cfg, s0) && !s0.mended && Run(cfg, s0, moves).Some? ::
              Truthful(Run(cfg, s0, moves).value, v)
  {
    if Trusted(cfg, false, v) {
      forall s0, moves | Init(cfg, s0) && !s0.mended && Run(cfg, s0, moves).Some?
        ensures Truthful(Run(cfg, s0, moves).value, v)
      {
        TrustedIsTruthful(cfg, s0, moves, v);
      }
    } else {
      var s0, moves, symbol := CacheUnsafeFails(cfg, v);
      hide Init, Run, CacheSafe, Storable, Resolve, Shifted;
      assert !Truthful(Run(cfg, s0, moves).value, v);
    }
  }
}
