/** The contract entry point `TestContract::test` of src/lib.rs, which mints
    one fixed certificate and unwraps the result, and the `mint_cert` test
    that runs it on a default environment. */
module Scenario {
  import opened CertificateModel
  import opened Service

  /** 61 seconds after the epoch, the made-up "now" of the scenario. */
  const Now: Seconds := 61

  /** "now" plus twelve calendar months: 1970 has 365 days, so one year later
      at the same time of day. */
  const Then: Seconds := Now + 365 * 86400

  /** The certificate the scenario mints. */
  function FooCertificate(): (c: Certificate)
    ensures c.certId == "foo_id"
    ensures c.issueDate == Now && c.expiryDate == Then && c.issueDate < c.expiryDate
  {
    Certificate("foo_id", "John Doe", "ACME Corp", "EdunodeCourse", Now, Then)
  }

  /** `TestContract::test`: `panicked` says whether `unwrap` met an error.
      Either way no key other than "foo_id" changes. */
  method Test(env: Env, encode: Encoder) returns (panicked: bool)
    modifies env
    ensures panicked <==> encode(FooCertificate()).Err?
    ensures panicked ==> env.storage == old(env.storage)
    ensures !panicked ==> env.storage == old(env.storage)["foo_id" := Widened(encode(FooCertificate()).value)]
  {
    var edunode := Edunode.New("foobar");
    var r := edunode.MintCertificate(FooCertificate(), env, encode);
    panicked := r.Err?;
  }

  /** The `mint_cert` test: a default environment, then the entry point.
      Afterwards storage holds at most the scenario certificate. */
  method MintCert(encode: Encoder) returns (env: Env, panicked: bool)
    ensures fresh(env)
    ensures panicked <==> encode(FooCertificate()).Err?
    ensures panicked ==> env.storage == map[]
    ensures !panicked ==> env.storage == map["foo_id" := Widened(encode(FooCertificate()).value)]
  {
    env := new Env.Default();
    panicked := Test(env, encode);
  }
}
