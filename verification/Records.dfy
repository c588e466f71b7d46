/**
 Audit records, signatures and digests.

 Hashing and signing are free constructors: two digests are equal exactly when they
 were made from equal parts, and a signature verifies exactly when the named key made
 it over that body. The canonical bytes of a record are its body: the signature is not
 part of what is hashed or signed.
 */
module Records {
  import opened Outcomes

  /** The largest integer canonical JSON carries. */
  const MAX_SAFE_INTEGER: int := 9_007_199_254_740_991

  /** Public key of a registry or auditor; its pinned text and `key_id` both name it. */
  type Key = string

  datatype Signature = Signed(signer: Key, body: Body) | Text(text: string)

  datatype Envelope = Envelope(keyId: Key, signature: Option<Signature>)

  datatype Endorsement = Endorsement(endorser: Option<string>, sig: Option<Envelope>)

  /** A record without its `sig`. `None` is a field that is absent or not of its type;
      `rest` stands for every field not named here. */
  datatype Body = Body(
    schemaVersion: Option<int>,
    hashVersion: Option<int>,
    name: Option<string>,
    sourceIdentity: Option<string>,
    commit: Option<string>,
    contentSha256: Option<string>,
    status: Option<string>,
    endorsements: Option<seq<Endorsement>>,
    rest: string)

  datatype Record = Record(body: Body, sig: Option<Envelope>)

  datatype Digest = Genesis | Entry(prev: Digest, body: Body) | Bare(prev: Digest) | Node(left: Digest, right: Digest)

  function PairHash(left: Digest, right: Digest): Digest { Node(left, right) }

  /** `Utc` is a time in the one accepted form; anything else a column may hold is `Malformed`. */
  datatype Timestamp = Utc(seconds: int) | Malformed(text: string)

  predicate Present(field: Option<string>) { field.Some? && field.value != "" }

  predicate HashVersionOk(body: Body) {
    var schema := if body.schemaVersion.None? then 1 else body.schemaVersion.value;
    && (schema == 1 || schema == 2)
    && !(schema == 1 && body.hashVersion.Some?)
    && !(schema == 2 && body.hashVersion != Some(2))
  }

  /** The checks an append makes of the record itself. */
  predicate Appendable(record: Record) {
    && Present(record.body.name) && Present(record.body.sourceIdentity) && Present(record.body.commit)
    && Present(record.body.contentSha256) && Present(record.body.status)
    && HashVersionOk(record.body)
  }

  /** Which records may be appended: the five fields, and either schema 1, said or implied, without a
      hash version, or schema 2 with hash version 2. */
  lemma AppendableIff(record: Record)
    ensures var b := record.body;
            Appendable(record) <==>
              && (forall f :: f in [b.name, b.sourceIdentity, b.commit, b.contentSha256, b.status] ==>
                    f != None && f != Some(""))
              && (((b.schemaVersion == None || b.schemaVersion == Some(1)) && b.hashVersion == None)
                  || (b.schemaVersion == Some(2) && b.hashVersion == Some(2)))
  {
    var b := record.body;
    var fields := [b.name, b.sourceIdentity, b.commit, b.contentSha256, b.status];
    assert fields[0] == b.name && fields[1] == b.sourceIdentity && fields[2] == b.commit
           && fields[3] == b.contentSha256 && fields[4] == b.status;
    assert forall k :: 0 <= k < |fields| ==> fields[k] in fields;
  }

  /** `COALESCE(hash_version, 1)` of a stored record. */
  function HashVersion(record: Option<Record>): int {
    if record.Some? && record.value.body.hashVersion.Some? then record.value.body.hashVersion.value else 1
  }

  function SignRecord(key: Key, body: Body): Record {
    Record(body, Some(Envelope(key, Some(Signed(key, body)))))
  }

  predicate VerifySigned(key: Key, record: Record) {
    record.sig == Some(Envelope(key, Some(Signed(key, record.body))))
  }

  // ---------------------------------------------------------------- import fingerprints

  datatype Fingerprint = Fingerprint(sourceIdentity: string, commit: string, contentSha256: string,
                                     status: string, signature: Signature)

  const UPSTREAM_IMPORT := "upstream-import"

  /** The signature of an endorsement that import put there, if it is one. */
  function ImportSignature(e: Endorsement): Option<Signature> {
    if e.endorser == Some(UPSTREAM_IMPORT) && e.sig.Some? then e.sig.value.signature else None
  }

  /** The first import signature among the endorsements. */
  function FirstImportSignature(es: seq<Endorsement>): Option<Signature> {
    if es == [] then None
    else if ImportSignature(es[0]).Some? then ImportSignature(es[0])
    else FirstImportSignature(es[1..])
  }

  /** The endorsement at `i` is the first that import put there with a signature. */
  ghost predicate FirstImportAt(es: seq<Endorsement>, i: int, signature: Signature) {
    && 0 <= i < |es| && es[i].endorser == Some("upstream-import")
    && es[i].sig.Some? && es[i].sig.value.signature == Some(signature)
    && forall j :: 0 <= j < i ==>
         es[j].endorser == Some("upstream-import") ==> es[j].sig == None || es[j].sig.value.signature == None
  }

  lemma {:induction false} FirstImportIff(es: seq<Endorsement>, signature: Signature)
    ensures FirstImportSignature(es) == Some(signature) <==> exists i :: FirstImportAt(es, i, signature)
    decreases |es|
  {
    if es != [] {
      var rest := es[1..];
      FirstImportIff(rest, signature);
      assert forall j :: 0 <= j < |rest| ==> rest[j] == es[j + 1];
      if ImportSignature(es[0]).Some? {
        assert ImportSignature(es[0]) == Some(signature) ==> FirstImportAt(es, 0, signature);
        assert forall i :: FirstImportAt(es, i, signature) ==> i == 0;
      } else {
        if i :| FirstImportAt(rest, i, signature) { assert FirstImportAt(es, i + 1, signature); }
        if i :| FirstImportAt(es, i, signature) { assert FirstImportAt(rest, i - 1, signature); }
      }
    }
  }

  function FingerprintOf(body: Body, signature: Option<Signature>): Option<Fingerprint> {
    if Present(body.sourceIdentity) && Present(body.commit) && Present(body.contentSha256) && Present(body.status)
       && signature.Some? && signature != Some(Text(""))
    then Some(Fingerprint(body.sourceIdentity.value, body.commit.value, body.contentSha256.value,
                          body.status.value, signature.value))
    else None
  }

  /** A fingerprint names the source, commit, content, status and signature it was made from. */
  lemma FingerprintNames(body: Body, signature: Option<Signature>, f: Fingerprint)
    ensures FingerprintOf(body, signature) == Some(f) <==>
              && body.sourceIdentity == Some(f.sourceIdentity) && f.sourceIdentity != ""
              && body.commit == Some(f.commit) && f.commit != ""
              && body.contentSha256 == Some(f.contentSha256) && f.contentSha256 != ""
              && body.status == Some(f.status) && f.status != ""
              && signature == Some(f.signature) && f.signature != Text("")
  {
  }

  /** The fingerprint recomputed from a stored record: the ledger re-check. */
  function ImportFingerprint(record: Option<Record>): Option<Fingerprint> {
    if record.None? || record.value.body.endorsements.None? then None
    else FingerprintOf(record.value.body, FirstImportSignature(record.value.body.endorsements.value))
  }
}
