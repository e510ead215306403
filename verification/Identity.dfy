/** Registered identities and the credentials the registry issues for them. */
module Identity {
  import opened Wrappers

  /** The registry's HMAC is a free term over the did: no other text is a did's credential. */
  datatype Credential = Hmac(did: string) | OtherSecret(text: string)

  datatype Record = Record(
    did: string, tenant: string, space: string, purpose: string, clearance: int, canMutate: bool)

  /** The session of a registered did that presents its own credential: its record. */
  function Authenticate(records: map<string, Record>, did: string, credential: Credential): Option<Record> {
    if did in records && credential == Hmac(did) then Some(records[did]) else None
  }

  /** Every record is filed under its own did. */
  ghost predicate Filed(records: map<string, Record>) {
    forall did :: did in records ==> records[did].did == did
  }

  class IdentityRegistry {
    var records: map<string, Record>

    ghost predicate Valid()
      reads this
    {
      Filed(records)
    }

    constructor ()
      ensures Valid() && records == map[]
    {
      records := map[];
    }

    method Register(record: Record) returns (credential: Credential)
      requires Valid()
      modifies this
      ensures Valid() && records == old(records)[record.did := record] && credential == Hmac(record.did)
    {
      records := records[record.did := record];
      credential := Hmac(record.did);
    }

    method Open(did: string, credential: Credential) returns (session: Option<Record>)
      ensures session == Authenticate(records, did, credential)
    {
      if did !in records {
        return None;
      }
      if Hmac(did) != credential {
        return None;
      }
      return Some(records[did]);
    }
  }
}
