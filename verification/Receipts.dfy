// Receipts as an auditor receives them, and verifyReceipt of src/verify.ts.
//
// Digests, key texts and signatures are opaque. Fields that arrive as untrusted JSON keep the
// shapes the code distinguishes.
module Receipts {
  import opened Wrappers
  import opened Doubles

  // tenant_id as found: a string, null, or anything else (including a missing field).
  datatype Tenant = Text(name: string) | Null | Other

  // chain_height as found: a finite number, given by its value; a boolean or null, which `+ 1`
  // treats as 1 or 0; or anything else.
  datatype Height = Number(value: real) | Coerced(value: real) | NotFinite

  datatype Integrity<D> = Integrity(previousHash: D, receiptHash: D, height: Height)

  // The hashed part: the whole receipt with receipt_hash blanked.
  datatype Body<D> = Body(tenant: Tenant, id: string, content: string, previousHash: D, height: Height)

  datatype Signature = Signature(isEdDSA: bool, kid: string, sig: string)

  // `id` is the receipt id, `content` stands for every other signed field. `wellFormed` says that the
  // remaining envelope guards pass, `canonicalizes` that the receipt is not nested too deeply to be
  // canonicalized, and `imprintMismatch` that some time-stamp token is for other bytes.
  datatype SignedReceipt<D> = SignedReceipt(
    tenant: Tenant, id: string, content: string, integrity: Option<Integrity<D>>, wellFormed: bool,
    canonicalizes: bool, signatures: seq<Signature>, imprintMismatch: bool)
  {
    function Hashed(): Body<D>
      requires integrity.Some?
    {
      Body(tenant, id, content, integrity.value.previousHash, integrity.value.height)
    }
  }

  // hash: SHA-256 of the canonical body. verify: Ed25519 over the body with its hash filled in.
  datatype Verifier<!D> = Verifier(hash: Body<D> -> D, verify: (Body<D>, D, string, string) -> bool,
                                  keys: map<string, string>, genesis: D)

  datatype VerifyResult = VerifyResult(valid: bool, hashMatches: bool, signatureValid: bool,
                                       chainLinkValid: Option<bool>, positionAttested: bool,
                                       imprintMatches: Option<bool>)

  predicate IsPositiveInteger(h: Height) {
    h.Number? && h.value.Floor as real == h.value && h.value >= 1.0
  }

  predicate SignatureOk<D>(v: Verifier<D>, body: Body<D>, hash: D, s: Signature) {
    s.isEdDSA && s.kid in v.keys && v.keys[s.kid] != "" && v.verify(body, hash, s.sig, v.keys[s.kid])
  }

  // Everything about a receipt that does not concern its place in the chain.
  predicate OwnChecks<D(==)>(v: Verifier<D>, r: SignedReceipt<D>) {
    && r.integrity.Some? && r.wellFormed && r.canonicalizes && !r.imprintMismatch
    && r.integrity.value.receiptHash == v.hash(r.Hashed())
    && exists i :: 0 <= i < |r.signatures| && SignatureOk(v, r.Hashed(), r.integrity.value.receiptHash, r.signatures[i])
  }

  // The place in the chain, given the predecessor if there is one. The sum is rounded like every
  // other, so from 2^53 on heights stop rising.
  predicate LinkOk<D(==)>(v: Verifier<D>, i: Integrity<D>, prev: Option<Integrity<D>>) {
    && IsPositiveInteger(i.height)
    && match prev
       case Some(p) =>
         p.receiptHash == i.previousHash && !p.height.NotFinite? && i.height.value == Successor(p.height.value)
       case None =>
         i.height.value == 1.0 <==> i.previousHash == v.genesis
  }

  predicate ReceiptValid<D(==)>(v: Verifier<D>, r: SignedReceipt<D>, prev: Option<Integrity<D>>) {
    OwnChecks(v, r) && LinkOk(v, r.integrity.value, prev)
  }

  method AnySignatureValid<D>(v: Verifier<D>, body: Body<D>, hash: D, signatures: seq<Signature>) returns (any: bool)
    ensures any <==> exists i :: 0 <= i < |signatures| && SignatureOk(v, body, hash, signatures[i])
    ensures any <==> exists s ::
      && s in signatures && s.isEdDSA && s.kid in v.keys && v.keys[s.kid] != ""
      && v.verify(body, hash, s.sig, v.keys[s.kid])
  {
    any := false;
    for i := 0 to |signatures|
      invariant any <==> exists j :: 0 <= j < i && SignatureOk(v, body, hash, signatures[j])
    {
      var s := signatures[i];
      if !s.isEdDSA || s.kid !in v.keys || v.keys[s.kid] == "" {
        continue;
      }
      if v.verify(body, hash, s.sig, v.keys[s.kid]) {
        any := true;
      }
    }
  }

  // The whole meaning of a valid receipt: the envelope is in shape, the hash is that of the body with
  // all its fields, some entry is an EdDSA signature that verifies under the key supplied for it, no
  // time-stamp token is for other bytes, the height is a positive integer, and the place in the chain
  // is right.
  lemma {:induction false} ValidMeans<D>(v: Verifier<D>, r: SignedReceipt<D>, prev: Option<Integrity<D>>)
    ensures ReceiptValid(v, r, prev) <==>
      && r.integrity.Some? && r.wellFormed && r.canonicalizes && !r.imprintMismatch
      && (var i := r.integrity.value;
          var body := Body(r.tenant, r.id, r.content, i.previousHash, i.height);
          && i.receiptHash == v.hash(body)
          && (exists s :: s in r.signatures && s.isEdDSA && s.kid in v.keys && v.keys[s.kid] != ""
                          && v.verify(body, i.receiptHash, s.sig, v.keys[s.kid]))
          && i.height.Number? && i.height.value.Floor as real == i.height.value >= 1.0
          && (prev.None? ==> (i.height == Number(1.0) <==> i.previousHash == v.genesis))
          && (prev.Some? ==>
                && i.previousHash == prev.value.receiptHash
                && (prev.value.height.Number? || prev.value.height.Coerced?)
                && i.height.value == ToDouble(prev.value.height.value + 1.0)))
  {
    hide ToDouble;
    if r.integrity.Some? {
      assert forall s :: s in r.signatures <==> exists i :: 0 <= i < |r.signatures| && r.signatures[i] == s;
    }
  }

  // The envelope guards pass.
  predicate Checked<D>(r: SignedReceipt<D>) {
    r.integrity.Some? && r.wellFormed
  }

  method VerifyReceipt<D(==)>(v: Verifier<D>, r: SignedReceipt<D>, prev: Option<Integrity<D>>)
    returns (result: VerifyResult)
    ensures result.valid <==> ReceiptValid(v, r, prev)
    ensures result.valid ==> r.integrity.Some? && r.wellFormed && r.canonicalizes && !r.imprintMismatch
    ensures result.valid ==> exists s ::
      && s in r.signatures && s.isEdDSA && s.kid in v.keys && v.keys[s.kid] != ""
      && v.verify(Body(r.tenant, r.id, r.content, r.integrity.value.previousHash, r.integrity.value.height),
                  r.integrity.value.receiptHash, s.sig, v.keys[s.kid])
    ensures result.hashMatches <==>
      Checked(r) && r.canonicalizes && r.integrity.value.receiptHash == v.hash(r.Hashed())
    ensures result.signatureValid <==> Checked(r) && r.canonicalizes && exists i ::
      0 <= i < |r.signatures| && SignatureOk(v, r.Hashed(), r.integrity.value.receiptHash, r.signatures[i])
    ensures result.chainLinkValid == Some(false) <==> Checked(r) && !LinkOk(v, r.integrity.value, prev)
    ensures result.chainLinkValid == Some(true) <==>
      Checked(r) && result.positionAttested && LinkOk(v, r.integrity.value, prev)
    ensures result.positionAttested <==>
      Checked(r) && IsPositiveInteger(r.integrity.value.height)
      && (prev.Some? || r.integrity.value.height.value == 1.0 || r.integrity.value.previousHash == v.genesis)
    ensures result.imprintMatches == if Checked(r) && r.imprintMismatch then Some(false) else None
  {
    result := VerifyResult(false, false, false, None, false, None);
    if r.integrity.None? || !r.wellFormed {
      return;
    }
    var i := r.integrity.value;
    result := result.(hashMatches := r.canonicalizes && v.hash(r.Hashed()) == i.receiptHash);
    var any := AnySignatureValid(v, r.Hashed(), i.receiptHash, if r.canonicalizes then r.signatures else []);
    result := result.(signatureValid := any);
    if !IsPositiveInteger(i.height) {
      result := result.(chainLinkValid := Some(false));
    } else if prev.Some? {
      var linkOk := prev.value.receiptHash == i.previousHash;
      var heightOk := !prev.value.height.NotFinite? && i.height.value == Successor(prev.value.height.value);
      result := result.(chainLinkValid := Some(linkOk && heightOk), positionAttested := true);
    } else if i.height.value == 1.0 || i.previousHash == v.genesis {
      var genesisOk := i.height.value == 1.0 && i.previousHash == v.genesis;
      result := result.(chainLinkValid := Some(genesisOk), positionAttested := true);
    }
    if r.imprintMismatch {
      result := result.(imprintMatches := Some(false));
    }
    result := result.(valid := result.hashMatches && result.signatureValid
                               && result.chainLinkValid != Some(false) && result.imprintMatches != Some(false));
  }
}
