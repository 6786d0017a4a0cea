# EduNode certificate minting, modelled in Dafny

This project models the certificate lifecycle of the EduNode library (`src/lib.rs`).
An issuer (`Edunode`) holds an account key. It mints a `Certificate` in three steps.
It encodes the certificate with postcard.
It widens each encoded byte to a `u32` cell of a fresh Soroban vector.
It writes that vector into the contract environment's storage under the certificate's `cert_id`.
Verification (`verify_certificate`) is a stub that accepts every certificate.

Files:

- `certificate.dfy` (module `CertificateModel`): the `Certificate` record, `EdunodeError`, the abstract encoder and the storage type.
- `edunode.dfy` (module `Service`): the `Env` class holding the storage map, the pure mint specification `Minted`, `Widened` (the byte-to-`u32` widening as a function with lemmas), the widening loop `WidenBytes`, the `Edunode` issuer with `New`, `MintCertificate` and `VerifyCertificate`, and lemmas about repeated mints.
- `scenario.dfy` (module `Scenario`): the contract entry point `TestContract::test`, which mints one fixed certificate, and the `mint_cert` test, which runs it on a default environment.

The postcard encoder is a parameter of type `Encoder`, a total function from `Certificate` to bytes or a postcard error.
Its wire format is not modelled.
Because it is a function, encoding the same certificate twice gives the same bytes, and `MintIdempotent` rests on that.
Timestamps are whole seconds since the epoch, as `ts_seconds` serialises them.

The code does not do the following, and neither does the model:

- Mint does not check `issue_date <= expiry_date`. Any certificate the encoder accepts is stored.
- Mint has no storage error path. `env.storage().set` returns nothing, so the only failure is the postcard error.
- Verification neither reads storage, compares fields nor checks expiry. It returns `Ok(true)` for every certificate.
- A second mint under an existing `cert_id` overwrites the stored value (last write wins). Nothing rejects duplicates.

## Model

| member | source | states |
|---|---|---|
| `Service.Widened` | src/lib.rs:53-56 | the pushed vector has exactly one cell per encoded byte, in the same order, each cell equal to the numeric value of its byte |
| `Service.WidenedBelow256` | src/lib.rs:55 | every cell produced by `byte as u32` lies in 0..255 |
| `Service.WidenedInjective` | src/lib.rs:53-56 | widening loses no information: equal widened vectors come from equal byte strings |
| `Service.WidenBytes` | src/lib.rs:53-56 | the `push_back` loop over the encoded output yields exactly `Widened(output)` |
| `Service.Env.Default` | src/lib.rs:123 | a default environment starts with empty storage |
| `Service.Env.Set` | src/lib.rs:58 | a storage `set` maps the key to the new value, replacing any old one, and leaves every other key as it was |
| `Service.Minted` | src/lib.rs:47-61 | mint fails exactly when encoding fails, returning that postcard error and leaving storage unchanged; otherwise it returns `Ok(())`, maps `cert_id` to the widened encoding and changes no other key |
| `Service.Edunode.MintCertificate` | src/lib.rs:47-61 | the method's result and new storage are those of `Minted` on the old storage |
| `Service.Edunode.New` | src/lib.rs:40-44 | the issuer holds exactly the account key it was given; creation cannot fail |
| `Service.Edunode.VerifyCertificate` | src/lib.rs:63-66 | verification returns `Ok(true)` for every certificate, and as a function of the certificate alone it reads and changes no storage, so a tampered certificate is accepted too |
| `Service.MintIdempotent` | src/lib.rs:48-58 | minting the same certificate twice gives the same result and storage as minting it once |
| `Service.MintLastWriteWins` | src/lib.rs:58 | after two mints under one `cert_id`, storage is as if only the later, successful mint had happened |
| `Service.MintDistinctIdsCommute` | src/lib.rs:58 | mints under different identifiers leave the same storage in either order |
| `Scenario.FooCertificate` | src/lib.rs:96-109 | the scenario certificate has id `foo_id`, issue date 61 s and expiry twelve months later, so its dates are ordered |
| `Scenario.Test` | src/lib.rs:95-112 | the entry point panics exactly when encoding fails, and then storage is unchanged; otherwise only `foo_id` is written, with the widened encoding |
| `Scenario.MintCert` | src/lib.rs:122-128 | on a default environment the entry point leaves storage empty if it panics, and otherwise holding only `foo_id` mapped to the widened encoding |

## Left out

- `store_image_in_ipfs` (src/lib.rs:68-88): an async IPFS client call plus a local file read. It is network and file I/O with no logic of its own.
- The postcard byte layout of `to_allocvec`: library code. The encoder is an abstract parameter, so round-trip and compactness of the encoding are not stated.
- The Soroban runtime: contract registration, the generated test client, storage fees and budget limits. Storage is a map field of `Env`, and `set` cannot fail in the model.
- The `wee_alloc` global allocator: memory management only.
- Chrono calendar arithmetic (`from_timestamp_opt`, `checked_add_months`): the scenario's two dates are the integer seconds these calls yield (61 and 61 + 365 days).
- Sub-second precision and the limited range of `DateTime<Utc>`: dates are unbounded integer seconds, which is what `ts_seconds` writes.
- The test `test_store_image_in_ipfs`: it needs a live IPFS node. The generated contract client that `mint_cert` goes through is reduced to a direct call.
- Storage read-back, tamper detection and expiry checks in verification: the source does not implement them.
