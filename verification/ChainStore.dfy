// The chain-state stores of src/chain-store.ts and the signing loop of src/receipt.ts.
//
// Each store is a map of heads with one atomic compare-and-set. The three stores test the
// height differently; StoresAgree says when that makes no difference.
module ChainStore {
  import opened Wrappers
  import opened Doubles
  import opened Receipts

  datatype ChainState<D> = ChainState(tenant: string, height: nat, previousHash: D, lastReceiptId: Option<string>)

  type Heads<D> = map<string, ChainState<D>>

  function Genesis<D>(tenant: string, genesis: D): ChainState<D> {
    ChainState(tenant, 0, genesis, None)
  }

  // What `load` returns.
  function Head<D>(heads: Heads<D>, tenant: string, genesis: D): ChainState<D> {
    if tenant in heads then heads[tenant] else Genesis(tenant, genesis)
  }

  // advanceChain of src/chain.ts.
  function AdvanceChain<D>(prev: ChainState<D>, hash: D, id: string): ChainState<D> {
    ChainState(prev.tenant, prev.height + 1, hash, Some(id))
  }

  datatype StoreKind = Memory | Postgres | File

  // Whether `advance` commits against these heads.
  predicate Allows<D>(kind: StoreKind, heads: Heads<D>, prev: ChainState<D>) {
    match kind
    case Memory => prev.tenant !in heads || heads[prev.tenant].height == prev.height
    case Postgres =>
      if prev.height == 0 then prev.tenant !in heads
      else prev.tenant in heads && heads[prev.tenant].height == prev.height
    case File => (if prev.tenant in heads then heads[prev.tenant].height else 0) == prev.height
  }

  ghost predicate SoundHeads<D>(heads: Heads<D>) {
    forall t :: t in heads ==> heads[t].tenant == t && heads[t].height >= 1
  }

  // On heads written by `advance`, all three stores decide alike unless the caller claims a
  // positive height for a tenant without a head; there the memory store alone commits.
  lemma {:induction false} StoresAgree<D>(heads: Heads<D>, prev: ChainState<D>)
    requires SoundHeads(heads)
    ensures Allows(Postgres, heads, prev) <==> Allows(File, heads, prev)
    ensures (Allows(Memory, heads, prev) <==> Allows(Postgres, heads, prev))
       <==> (prev.tenant in heads || prev.height == 0)
  {
    if prev.tenant in heads {
      assert heads[prev.tenant].height >= 1;
    }
  }

  class MemoryChainStateStore<D> {
    const genesis: D
    var state: Heads<D>

    constructor (genesis: D)
      ensures this.genesis == genesis && state == map[]
    {
      this.genesis, state := genesis, map[];
    }

    method Load(tenant: string) returns (s: ChainState<D>)
      ensures s == Head(state, tenant, genesis)
      ensures s == if tenant in state then state[tenant] else ChainState(tenant, 0, genesis, None)
    {
      if tenant in state {
        return state[tenant];
      }
      return ChainState(tenant, 0, genesis, None);
    }

    // Err is ConcurrentChainWriteError.
    method Advance(prev: ChainState<D>, hash: D, id: string) returns (r: Result<ChainState<D>>)
      modifies this
      ensures r.Ok? <==> Allows(Memory, old(state), prev)
      ensures r.Ok? ==> r.value == ChainState(prev.tenant, prev.height + 1, hash, Some(id))
      ensures r.Ok? ==> state == old(state)[prev.tenant := r.value]
      ensures r.Err? ==> state == old(state)
    {
      if prev.tenant in state && state[prev.tenant].height != prev.height {
        return Err;
      }
      var next := ChainState(prev.tenant, prev.height + 1, hash, Some(id));
      state := state[prev.tenant := next];
      return Ok(next);
    }
  }

  class PostgresChainStateStore<D> {
    const genesis: D
    var rows: Heads<D>

    constructor (genesis: D)
      ensures this.genesis == genesis && rows == map[]
    {
      this.genesis, rows := genesis, map[];
    }

    method Load(tenant: string) returns (s: ChainState<D>)
      ensures s == Head(rows, tenant, genesis)
      ensures s == if tenant in rows then rows[tenant] else ChainState(tenant, 0, genesis, None)
    {
      var rowCount := if tenant in rows then 1 else 0;
      if rowCount == 0 {
        return ChainState(tenant, 0, genesis, None);
      }
      return rows[tenant];
    }

    method Advance(prev: ChainState<D>, hash: D, id: string) returns (r: Result<ChainState<D>>)
      modifies this
      ensures r.Ok? <==> Allows(Postgres, old(rows), prev)
      ensures r.Ok? ==> r.value == ChainState(prev.tenant, prev.height + 1, hash, Some(id))
      ensures r.Ok? ==> rows == old(rows)[prev.tenant := r.value]
      ensures r.Err? ==> rows == old(rows)
    {
      var next := ChainState(prev.tenant, prev.height + 1, hash, Some(id));
      var rowCount := 0;
      if prev.height == 0 {
        // INSERT ... ON CONFLICT DO NOTHING
        if prev.tenant !in rows {
          rows, rowCount := rows[prev.tenant := next], 1;
        }
      } else {
        // UPDATE ... WHERE chain_height = previous
        if prev.tenant in rows && rows[prev.tenant].height == prev.height {
          rows, rowCount := rows[prev.tenant := next], 1;
        }
      }
      return if rowCount == 0 then Err else Ok(next);
    }
  }

  class FileChainStateStore<D> {
    const genesis: D
    var files: Heads<D>

    constructor (genesis: D)
      ensures this.genesis == genesis && files == map[]
    {
      this.genesis, files := genesis, map[];
    }

    method Load(tenant: string) returns (s: ChainState<D>)
      ensures s == Head(files, tenant, genesis)
      ensures s == if tenant in files then files[tenant] else ChainState(tenant, 0, genesis, None)
    {
      return if tenant in files then files[tenant] else ChainState(tenant, 0, genesis, None);
    }

    method Advance(prev: ChainState<D>, hash: D, id: string) returns (r: Result<ChainState<D>>)
      modifies this
      ensures r.Ok? <==> Allows(File, old(files), prev)
      ensures r.Ok? ==> r.value == ChainState(prev.tenant, prev.height + 1, hash, Some(id))
      ensures r.Ok? ==> files == old(files)[prev.tenant := r.value]
      ensures r.Err? ==> files == old(files)
    {
      var current := Load(prev.tenant);
      if current.height != prev.height {
        return Err;
      }
      var next := AdvanceChain(prev, hash, id);
      files := files[prev.tenant := next];
      return Ok(next);
    }
  }

  // ---------- building and signing ----------

  // A signer holds one key pair: `sign` stands for Ed25519 under it.
  datatype Signer<!D> = Signer(kid: string, sign: (Body<D>, D) -> string)

  // Hash the body with a blank receipt_hash, fill it in, sign the result. `id` is the fresh receipt id,
  // `content` is everything the caller supplies.
  function SignedOn<D>(v: Verifier<D>, k: Signer<D>, tenant: string, id: string, content: string, prev: ChainState<D>)
    : SignedReceipt<D> {
    var body := Body(Text(tenant), id, content, prev.previousHash, Number((prev.height + 1) as real));
    var hash := v.hash(body);
    SignedReceipt(Text(tenant), id, content, Some(Integrity(prev.previousHash, hash, body.height)), true, true,
                  [Signature(true, k.kid, k.sign(body, hash))], false)
  }

  // buildSignedReceipt; Err when the height would not be a safe integer.
  function BuildSignedReceipt<D>(v: Verifier<D>, k: Signer<D>, tenant: string, id: string, content: string,
                                 prev: ChainState<D>)
    : Result<SignedReceipt<D>> {
    if prev.height + 1 > MAX_SAFE_INTEGER then Err else Ok(SignedOn(v, k, tenant, id, content, prev))
  }

  // The verifier holds this signer's key, and the key verifies what the signer signs.
  ghost predicate Trusts<D(!new)>(v: Verifier<D>, k: Signer<D>) {
    && k.kid in v.keys && v.keys[k.kid] != ""
    && forall body, hash :: v.verify(body, hash, k.sign(body, hash), v.keys[k.kid])
  }

  lemma {:induction false} BuiltPassesOwnChecks<D(!new)>(v: Verifier<D>, k: Signer<D>, tenant: string, id: string,
                                                         content: string, prev: ChainState<D>)
    requires Trusts(v, k)
    ensures OwnChecks(v, SignedOn(v, k, tenant, id, content, prev))
  {
    var r := SignedOn(v, k, tenant, id, content, prev);
    assert SignatureOk(v, r.Hashed(), r.integrity.value.receiptHash, r.signatures[0]);
  }

  // Writers that get in between a load and the matching advance: each commits one receipt hash
  // on the then current head.
  method Interfere<D>(store: MemoryChainStateStore<D>, tenant: string, rivals: seq<D>)
    modifies store
    ensures Head(store.state, tenant, store.genesis).height
         == old(Head(store.state, tenant, store.genesis)).height + |rivals|
    ensures rivals == [] ==> store.state == old(store.state)
    ensures old(SoundHeads(store.state)) ==> SoundHeads(store.state)
  {
    for n := 0 to |rivals|
      invariant Head(store.state, tenant, store.genesis).height
             == old(Head(store.state, tenant, store.genesis)).height + n
      invariant n == 0 ==> store.state == old(store.state)
      invariant old(SoundHeads(store.state)) ==> SoundHeads(store.state)
    {
      var head := store.Load(tenant);
      var r := store.Advance(head.(tenant := tenant), rivals[n], "");
    }
  }

  // signReceiptWithStore against the memory store, with the interference at each attempt and its fresh
  // receipt id given: it returns at the first attempt that no rival beats. It throws when
  // maxRetries + 1 attempts are beaten, or at once when the head it loads leaves no safe height.
  method SignReceiptWithStore<D>(v: Verifier<D>, k: Signer<D>, tenant: string, content: string,
                                 store: MemoryChainStateStore<D>, maxRetries: nat, rivals: seq<seq<D>>,
                                 ids: seq<string>)
    returns (r: Result<SignedReceipt<D>>, attempts: nat, ghost head: ChainState<D>)
    requires |rivals| > maxRetries && |ids| > maxRetries && SoundHeads(store.state)
    modifies store
    ensures SoundHeads(store.state) && attempts <= maxRetries
    ensures forall a :: 0 <= a < attempts ==> rivals[a] != []
    ensures r.Ok? <==> rivals[attempts] == [] && head.height < MAX_SAFE_INTEGER
    ensures r.Err? ==> attempts == maxRetries || head.height >= MAX_SAFE_INTEGER
    ensures r.Ok? ==>
      && head.tenant == tenant && r.value.id == ids[attempts]
      && r.value.tenant == Text(tenant) && r.value.content == content
      && r.value.integrity.Some? && r.value.integrity.value.previousHash == head.previousHash
      && r.value.integrity.value.height == Number((head.height + 1) as real)
      && (var body := Body(Text(tenant), ids[attempts], content, head.previousHash, Number((head.height + 1) as real));
          && r.value.integrity.value.receiptHash == v.hash(body)
          && r.value.signatures == [Signature(true, k.kid, k.sign(body, v.hash(body)))])
      && tenant in store.state
      && store.state[tenant] ==
         ChainState(tenant, head.height + 1, r.value.integrity.value.receiptHash, Some(ids[attempts]))
  {
    attempts := 0;
    while true
      invariant attempts <= maxRetries && SoundHeads(store.state)
      invariant forall a :: 0 <= a < attempts ==> rivals[a] != []
      decreases maxRetries - attempts
    {
      var prev := store.Load(tenant);
      head := prev;
      var signed := BuildSignedReceipt(v, k, tenant, ids[attempts], content, prev);
      if signed.Err? {
        return Err, attempts, prev;
      }
      Interfere(store, tenant, rivals[attempts]);
      var committed := store.Advance(prev, signed.value.integrity.value.receiptHash, ids[attempts]);
      if committed.Ok? {
        return signed, attempts, prev;
      }
      if attempts >= maxRetries {
        return Err, attempts, prev;
      }
      attempts := attempts + 1;
    }
  }
}
