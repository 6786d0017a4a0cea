/** The certificate data model of src/lib.rs: the `Certificate` record, the
    error type of the issuer, the abstract postcard encoder, and the storage
    of `u32` cells the ledger keeps. */
module CertificateModel {

  /** One encoded byte, as postcard's `to_allocvec` produces it. */
  type byte = bv8

  /** Rust's `u32`, the element type of the Soroban vector written to storage. */
  newtype u32 = x: int | 0 <= x < 0x1_0000_0000

  /** A timestamp as `ts_seconds` serialises it: whole seconds since the Unix epoch. */
  type Seconds = int

  datatype Result<T, E> = Ok(value: T) | Err(error: E)

  /** A certificate: four borrowed strings and two UTC timestamps.
      Nothing here relates `issueDate` to `expiryDate`. */
  datatype Certificate = Certificate(
    certId: string,
    recipientName: string,
    issuingInstitution: string,
    courseName: string,
    issueDate: Seconds,
    expiryDate: Seconds)

  /** `postcard::Error`. Its variants belong to the postcard library; the model
      only carries the error from the encoder to the caller unchanged. */
  datatype PostcardFailure = PostcardFailure(code: nat)

  /** `EdunodeError`: its only variant wraps a postcard error. */
  datatype EdunodeError = PostcardError(cause: PostcardFailure)

  /** `to_allocvec` applied to a certificate: either the encoded bytes or a
      postcard error. Being a function, it gives the same answer for the same
      certificate every time. */
  type Encoder = Certificate -> Result<seq<byte>, PostcardFailure>

  /** What the storage of the contract environment holds here: for each key the
      vector of `u32` cells last written under it. */
  type Storage = map<string, seq<u32>>
}
