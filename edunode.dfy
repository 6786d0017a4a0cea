/** The issuer of src/lib.rs: `Edunode` with `new`, `mint_certificate` and
    `verify_certificate`, the widening of encoded bytes into the `u32` cells a
    mint stores, and the contract environment whose storage a mint writes to. */
module Service {
  import opened CertificateModel

  /** The Soroban contract environment, reduced to its key-value storage. */
  class Env {
    var storage: Storage

    /** `Env::default()`: an environment whose storage holds nothing. */
    constructor Default()
      ensures storage == map[]
    {
      storage := map[];
    }

    /** `env.storage().set(key, val)`: writes `val` under `key`, replacing any
        earlier value there, and touches no other key. */
    method Set(key: string, val: seq<u32>)
      modifies this
      ensures storage == old(storage)[key := val]
      ensures key in storage && storage[key] == val
      ensures forall k :: k != key ==> (k in storage <==> k in old(storage))
      ensures forall k :: k != key && k in old(storage) ==> storage[k] == old(storage)[k]
    {
      storage := storage[key := val];
    }
  }

  /** What one mint returns, together with the storage it leaves behind. */
  datatype MintOutcome = MintOutcome(result: Result<(), EdunodeError>, store: Storage)

  /** The effect of minting `cert` on `store` with the encoder `encode`. */
  function Minted(store: Storage, cert: Certificate, encode: Encoder): (o: MintOutcome)
    // The only failure is the encoder's, returned as a `PostcardError`.
    ensures o.result.Err? <==> encode(cert).Err?
    ensures encode(cert).Err? ==> o.result == Err(PostcardError(encode(cert).error)) && o.store == store
    // On success the certificate's identifier maps to the widened encoding ...
    ensures encode(cert).Ok? ==> o.result == Ok(())
    ensures encode(cert).Ok? ==> cert.certId in o.store && o.store[cert.certId] == Widened(encode(cert).value)
    // ... and every other key is exactly as it was.
    ensures forall k :: k != cert.certId ==> (k in o.store <==> k in store)
    ensures forall k :: k != cert.certId && k in store ==> o.store[k] == store[k]
  {
    match encode(cert)
    case Err(e) => MintOutcome(Err(PostcardError(e)), store)
    case Ok(output) => MintOutcome(Ok(()), store[cert.certId := Widened(output)])
  }

  /** The vector built by pushing `byte as u32` for each byte of `bytes`, in
      order, onto an initially empty vector. */
  function Widened(bytes: seq<byte>): (w: seq<u32>)
    ensures |w| == |bytes|
    ensures forall i :: 0 <= i < |bytes| ==> w[i] as int == bytes[i] as int
  {
    if |bytes| == 0 then []
    else Widened(bytes[..|bytes| - 1]) + [bytes[|bytes| - 1] as int as u32]
  }

  /** Every widened cell holds a value that fits in one byte. */
  lemma WidenedBelow256(bytes: seq<byte>)
    ensures forall i :: 0 <= i < |Widened(bytes)| ==> 0 <= Widened(bytes)[i] < 256
  {
  }

  /** Widening loses nothing: two byte strings that widen to the same vector are equal. */
  lemma WidenedInjective(a: seq<byte>, b: seq<byte>)
    requires Widened(a) == Widened(b)
    ensures a == b
  {
  }

  /** Builds the Soroban vector from the encoded bytes, one `push_back` per byte. */
  method WidenBytes(output: seq<byte>) returns (sorobanVec: seq<u32>)
    ensures sorobanVec == Widened(output)
  {
    sorobanVec := [];
    for i := 0 to |output|
      invariant sorobanVec == Widened(output[..i])
    {
      assert output[..i + 1][..i] == output[..i];
      sorobanVec := sorobanVec + [output[i] as int as u32];
    }
    assert output[..|output|] == output;
  }

  /** The issuer: holds only the account key it was created with. */
  datatype Edunode = Edunode(accountKey: string) {

    /** `Edunode::new`: keeps the key as given; no check of keys or
        connectivity is made, so it cannot fail. */
    static function New(accountKey: string): (e: Edunode)
      ensures e.accountKey == accountKey
    {
      Edunode(accountKey)
    }

    /** `mint_certificate`: encode, widen, and write under `cert.certId`. */
    method MintCertificate(cert: Certificate, env: Env, encode: Encoder)
      returns (r: Result<(), EdunodeError>)
      modifies env
      ensures r == Minted(old(env.storage), cert, encode).result
      ensures env.storage == Minted(old(env.storage), cert, encode).store
    {
      var output: seq<byte>;
      match encode(cert) {
        case Ok(v) =>
          output := v;
        case Err(e) =>
          return Err(PostcardError(e));
      }
      var sorobanVec := WidenBytes(output);
      env.Set(cert.certId, sorobanVec);
      r := Ok(());
    }

    /** `verify_certificate`: a stub that accepts every certificate without
        consulting any storage. */
    function VerifyCertificate(cert: Certificate): (r: Result<bool, EdunodeError>)
      ensures r.Ok? && r.value
    {
      Ok(true)
    }
  }

  /** Minting the same certificate twice leaves the same storage, and returns
      the same result, as minting it once. */
  lemma MintIdempotent(store: Storage, cert: Certificate, encode: Encoder)
    ensures Minted(Minted(store, cert, encode).store, cert, encode) == Minted(store, cert, encode)
  {
  }

  /** Two successful mints under the same identifier: the later one wins,
      whatever the earlier one wrote. */
  lemma MintLastWriteWins(store: Storage, first: Certificate, second: Certificate, encode: Encoder)
    requires first.certId == second.certId
    requires encode(second).Ok?
    ensures Minted(Minted(store, first, encode).store, second, encode).store == Minted(store, second, encode).store
  {
  }

  /** Mints under different identifiers do not interfere: either order leaves
      the same storage. */
  lemma MintDistinctIdsCommute(store: Storage, a: Certificate, b: Certificate, encode: Encoder)
    requires a.certId != b.certId
    ensures Minted(Minted(store, a, encode).store, b, encode).store
         == Minted(Minted(store, b, encode).store, a, encode).store
  {
  }
}
