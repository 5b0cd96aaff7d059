/**
 The user record, the two request shapes that write it, and the response view
 that is returned for it.
 */
module UserModel {
  import opened Dates

  /** A value that may be Java's `null`. */
  datatype Option<T> = None | Some(value: T)

  /**
   A stored user without its id; the id is the key under which the table
   keeps it. Email, names and birth date are required by the request that
   writes them; address and phone number may be null.
   */
  datatype User = User(
    email: string,
    firstName: string,
    lastName: string,
    birthDate: Date,
    address: Option<string>,
    phoneNumber: Option<string>)

  /** The body of a create or full-update request. */
  datatype UserRequest = UserRequest(
    email: string,
    firstName: string,
    lastName: string,
    birthDate: Date,
    address: Option<string>,
    phoneNumber: Option<string>)

  /** The body of a partial update: every field may be null, meaning "keep". */
  datatype UserFieldsPatch = UserFieldsPatch(
    email: Option<string>,
    firstName: Option<string>,
    lastName: Option<string>,
    birthDate: Option<Date>,
    address: Option<string>,
    phoneNumber: Option<string>)

  /** The response view: address and phone number are not part of it. */
  datatype UserView = UserView(
    id: int,
    email: string,
    firstName: string,
    lastName: string,
    birthDate: Date)

  /** A new record carrying every field of the request, nulls included. */
  function BuildUser(req: UserRequest): (u: User)
    ensures u.email == req.email && u.firstName == req.firstName && u.lastName == req.lastName
    ensures u.birthDate == req.birthDate
    ensures u.address == req.address && u.phoneNumber == req.phoneNumber
  {
    User(req.email, req.firstName, req.lastName, req.birthDate, req.address, req.phoneNumber)
  }

  /** The view of the record stored under `id`. */
  function Project(id: int, u: User): (v: UserView)
    ensures v.id == id && v.email == u.email && v.firstName == u.firstName
    ensures v.lastName == u.lastName && v.birthDate == u.birthDate
  {
    UserView(id, u.email, u.firstName, u.lastName, u.birthDate)
  }

  /** The field a partial update leaves: the supplied value, or the stored one on null. */
  function Pick<T>(stored: T, supplied: Option<T>): (v: T)
  {
    if supplied.Some? then supplied.value else stored
  }

  /** The record after a partial update: each non-null field of the patch overwrites. */
  function Merge(u: User, patch: UserFieldsPatch): (r: User)
    ensures patch.email.Some? ==> r.email == patch.email.value
    ensures patch.email.None? ==> r.email == u.email
    ensures patch.firstName.Some? ==> r.firstName == patch.firstName.value
    ensures patch.firstName.None? ==> r.firstName == u.firstName
    ensures patch.lastName.Some? ==> r.lastName == patch.lastName.value
    ensures patch.lastName.None? ==> r.lastName == u.lastName
    ensures patch.birthDate.Some? ==> r.birthDate == patch.birthDate.value
    ensures patch.birthDate.None? ==> r.birthDate == u.birthDate
    ensures patch.address.Some? ==> r.address == patch.address
    ensures patch.address.None? ==> r.address == u.address
    ensures patch.phoneNumber.Some? ==> r.phoneNumber == patch.phoneNumber
    ensures patch.phoneNumber.None? ==> r.phoneNumber == u.phoneNumber
  {
    User(
      Pick(u.email, patch.email),
      Pick(u.firstName, patch.firstName),
      Pick(u.lastName, patch.lastName),
      Pick(u.birthDate, patch.birthDate),
      if patch.address.Some? then patch.address else u.address,
      if patch.phoneNumber.Some? then patch.phoneNumber else u.phoneNumber)
  }

  const EmptyPatch := UserFieldsPatch(None, None, None, None, None, None)

  /** An all-null partial update leaves the record as it was. */
  lemma MergeEmptyPatch(u: User)
    ensures Merge(u, EmptyPatch) == u
  {
  }

  /** Applying the same partial update twice is applying it once. */
  lemma MergeIdempotent(u: User, patch: UserFieldsPatch)
    ensures Merge(Merge(u, patch), patch) == Merge(u, patch)
  {
  }

  /** A firstName-only update changes firstName and nothing else. */
  lemma MergeFirstNameOnly(u: User, name: string)
    ensures Merge(u, EmptyPatch.(firstName := Some(name))) == u.(firstName := name)
  {
  }

  /** A partial update can never clear a field: a non-null address or phone stays non-null. */
  lemma MergeNeverClears(u: User, patch: UserFieldsPatch)
    ensures u.address.Some? ==> Merge(u, patch).address.Some?
    ensures u.phoneNumber.Some? ==> Merge(u, patch).phoneNumber.Some?
  {
  }

  /** The patch that supplies every field of a request. */
  function PatchOf(req: UserRequest): (p: UserFieldsPatch)
    ensures p.email.Some? && p.firstName.Some? && p.lastName.Some? && p.birthDate.Some?
  {
    UserFieldsPatch(Some(req.email), Some(req.firstName), Some(req.lastName),
                    Some(req.birthDate), req.address, req.phoneNumber)
  }

  /**
   A partial update that supplies every field agrees with a full update;
   a null address or phone is where the two differ, since only the full
   update writes the null.
   */
  lemma MergeFullPatchIsRebuild(u: User, req: UserRequest)
    ensures req.address.Some? && req.phoneNumber.Some? ==> Merge(u, PatchOf(req)) == BuildUser(req)
    ensures req.address.None? && u.address.Some? ==> Merge(u, PatchOf(req)) != BuildUser(req)
  {
  }
}
