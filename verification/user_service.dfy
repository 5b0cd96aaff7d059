/**
 The user business-rule service: a table of users keyed by id, a counter for
 the next id, and the configured minimum age. Create checks email
 uniqueness and then age; the updates and the delete require the id to be
 present; the range search rejects a start after the end. Every failure
 leaves the table as it was.
 */
module UserServiceImpl {
  import opened Dates
  import opened UserModel
  import opened UserStore
  import opened ServiceErrors

  /**
   Old enough: the whole-year age on `today` is not below `minAge`. A birth
   date after today never meets a positive minimum.
   */
  predicate OldEnough(birthDate: Date, today: Date, minAge: int): (ok: bool)
    ensures ok && ValidDate(birthDate) && ValidDate(today) && minAge > 0 ==> NotAfter(birthDate, today)
  {
    !(PeriodYears(birthDate, today) < minAge)
  }

  /** The age rule for valid dates, in calendar terms: the minAge-th birthday has come. */
  lemma {:induction false} OldEnoughIffBirthdayReached(birthDate: Date, today: Date, minAge: int)
    requires ValidDate(birthDate) && ValidDate(today) && minAge > 0
    ensures OldEnough(birthDate, today, minAge) <==>
      NotAfter(birthDate, today)
      && today.year - birthDate.year - (if BirthdayPending(birthDate, today) then 1 else 0) >= minAge
  {
    if NotAfter(birthDate, today) {
      PeriodYearsIsWholeYears(birthDate, today);
    } else {
      PeriodYearsOfFutureDate(birthDate, today);
    }
  }

  /** The boundary is inclusive: on the minAge-th birthday the user is old enough. */
  lemma ExactlyMinAgeIsAccepted(birthDate: Date, minAge: nat)
    requires ValidDate(birthDate)
    ensures OldEnough(birthDate, Date(birthDate.year + minAge, birthDate.month, birthDate.day), minAge)
  {
    AnniversaryAge(birthDate, minAge);
  }

  /** On every day before the minAge-th birthday the user is still too young. */
  lemma {:induction false} BeforeMinAgeBirthdayIsRejected(birthDate: Date, today: Date, minAge: nat)
    requires ValidDate(birthDate) && ValidDate(today) && minAge > 0
    requires Before(today, Date(birthDate.year + minAge, birthDate.month, birthDate.day))
    ensures !OldEnough(birthDate, today, minAge)
  {
    OldEnoughIffBirthdayReached(birthDate, today, minAge);
  }

  /** Someone born on 2022-05-12 is under 18 on any day up to the end of 2039. */
  lemma {:induction false} BornIn2022IsTooYoung(today: Date)
    requires ValidDate(today) && today.year <= 2039
    ensures !OldEnough(Date(2022, 5, 12), today, 18)
  {
    OldEnoughIffBirthdayReached(Date(2022, 5, 12), today, 18);
  }

  class UserService {
    /** The user table: id to stored record. */
    var users: Table
    /** The id the next created user receives. */
    var nextId: nat
    /** `user.min-age`, read once from configuration. */
    const minAge: int

    /** Every stored id was handed out before, and ids start at 1. */
    ghost predicate Valid()
      reads this
    {
      0 < nextId && forall id :: id in users ==> 0 < id < nextId
    }

    constructor (minAge: int)
      ensures Valid()
      ensures users == map[] && nextId == 1 && this.minAge == minAge
    {
      this.minAge := minAge;
      users := map[];
      nextId := 1;
    }

    /** `save` of a new record: the store assigns the next id. */
    method Insert(user: User) returns (id: int)
      requires Valid()
      modifies this
      ensures Valid()
      ensures id == old(nextId) && id !in old(users)
      ensures users == old(users)[id := user] && nextId == id + 1
    {
      id := nextId;
      users := users[id := user];
      nextId := nextId + 1;
    }

    method CreateUser(req: UserRequest, today: Date) returns (r: Result<UserView>)
      requires Valid()
      modifies this
      ensures Valid()
      // the email check comes first, whatever the age
      ensures EmailTaken(old(users), req.email) ==>
        r == Failure(EmailAlreadyExists(req.email))
        && users == old(users) && nextId == old(nextId)
      ensures !EmailTaken(old(users), req.email) && !OldEnough(req.birthDate, today, minAge) ==>
        r == Failure(UserLowAge(minAge))
        && users == old(users) && nextId == old(nextId)
      ensures !EmailTaken(old(users), req.email) && OldEnough(req.birthDate, today, minAge) ==>
        old(nextId) !in old(users)
        && users == old(users)[old(nextId) := BuildUser(req)]
        && nextId == old(nextId) + 1
        && r == Success(Project(old(nextId), BuildUser(req)))
      ensures r.Success? ==>
        r.value.email == req.email && r.value.firstName == req.firstName
        && r.value.lastName == req.lastName && r.value.birthDate == req.birthDate
    {
      if EmailTaken(users, req.email) {
        return Failure(EmailAlreadyExists(req.email));
      }
      if PeriodYears(req.birthDate, today) < minAge {
        return Failure(UserLowAge(minAge));
      }
      var user := BuildUser(req);
      var id := Insert(user);
      r := Success(Project(id, users[id]));
    }

    method UpdateUser(id: int, req: UserRequest) returns (r: Result<UserView>)
      requires Valid()
      modifies this
      ensures Valid() && nextId == old(nextId)
      ensures id !in old(users) ==> r == Failure(UserNotFound(id)) && users == old(users)
      ensures id in old(users) ==>
        users == old(users)[id := BuildUser(req)]
        && r == Success(Project(id, BuildUser(req)))
    {
      if id !in users {
        return Failure(UserNotFound(id));
      }
      var user := users[id];
      user := user.(email := req.email);
      user := user.(firstName := req.firstName);
      user := user.(lastName := req.lastName);
      user := user.(address := req.address);
      user := user.(phoneNumber := req.phoneNumber);
      user := user.(birthDate := req.birthDate);
      users := users[id := user];
      r := Success(Project(id, user));
    }

    method UpdateUserFields(id: int, patch: UserFieldsPatch) returns (r: Result<UserView>)
      requires Valid()
      modifies this
      ensures Valid() && nextId == old(nextId)
      ensures id !in old(users) ==> r == Failure(UserNotFound(id)) && users == old(users)
      ensures id in old(users) ==>
        users == old(users)[id := Merge(old(users)[id], patch)]
        && r == Success(Project(id, Merge(old(users)[id], patch)))
    {
      if id !in users {
        return Failure(UserNotFound(id));
      }
      var user := users[id];
      if patch.email.Some? { user := user.(email := patch.email.value); }
      if patch.firstName.Some? { user := user.(firstName := patch.firstName.value); }
      if patch.lastName.Some? { user := user.(lastName := patch.lastName.value); }
      if patch.birthDate.Some? { user := user.(birthDate := patch.birthDate.value); }
      if patch.address.Some? { user := user.(address := patch.address); }
      if patch.phoneNumber.Some? { user := user.(phoneNumber := patch.phoneNumber); }
      users := users[id := user];
      r := Success(Project(id, user));
    }

    method RemoveUser(id: int) returns (r: Outcome)
      requires Valid()
      modifies this
      ensures Valid() && nextId == old(nextId)
      ensures id !in old(users) ==> r == Fail(UserNotFound(id)) && users == old(users)
      ensures id in old(users) ==> r == Done && users == old(users) - {id}
    {
      if id !in users {
        return Fail(UserNotFound(id));
      }
      users := users - {id};
      r := Done;
    }

    /**
     The users born between `start` and `end` inclusive, one view each, in
     the table's row order; a start after the end is rejected.
     */
    method FindUsersByBirthDateRange(start: Date, end: Date) returns (r: Result<seq<UserView>>)
      requires Valid()
      ensures r.Failure? <==> IsAfter(start, end)
      ensures r.Failure? ==> r.error == InvalidDateRange
      ensures r.Success? ==>
        forall v :: v in r.value ==>
          v.id in users && v == Project(v.id, users[v.id]) && InRange(users[v.id].birthDate, start, end)
      ensures r.Success? ==>
        forall id :: id in users && InRange(users[id].birthDate, start, end) ==>
          Project(id, users[id]) in r.value
      ensures r.Success? ==>
        forall i, j :: 0 <= i < j < |r.value| ==> r.value[i].id < r.value[j].id
    {
      if IsAfter(start, end) {
        return Failure(InvalidDateRange);
      }
      var rows := FindByBirthDateBetween(users, nextId, start, end);
      var views := ViewsOf(users, rows);
      forall id | id in users && InRange(users[id].birthDate, start, end)
        ensures Project(id, users[id]) in views
      {
        var k :| 0 <= k < |rows| && rows[k] == id;
        assert views[k] == Project(id, users[id]);
      }
      r := Success(views);
    }
  }
}

/**
 A client run of the service: what callers can conclude from the contracts
 alone, following the scenarios of the service's unit tests.
 */
module UserServiceScenario {
  import opened Dates
  import opened UserModel
  import opened UserStore
  import opened ServiceErrors
  import opened UserServiceImpl

  method Scenario()
  {
    var service := new UserService(18);
    var today := Date(2024, 6, 1);

    var kid := UserRequest("kid@example.com", "K", "Id", Date(2022, 5, 12), None, None);
    BornIn2022IsTooYoung(today);
    var r0 := service.CreateUser(kid, today);
    assert r0 == Failure(UserLowAge(18)) && service.users == map[];

    var adult := UserRequest("a@x.com", "First", "Last", Date(2000, 1, 1), Some("1234 Street"), None);
    OldEnoughIffBirthdayReached(adult.birthDate, today, 18);
    var r1 := service.CreateUser(adult, today);
    assert r1.Success? && r1.value.id == 1 && r1.value.email == "a@x.com";

    var r2 := service.CreateUser(adult, today);
    assert EmailTaken(service.users, "a@x.com") by { assert service.users[1].email == "a@x.com"; }
    assert r2 == Failure(EmailAlreadyExists("a@x.com"));

    var r3 := service.UpdateUserFields(1, EmptyPatch.(firstName := Some("Updated")));
    assert service.users[1] == BuildUser(adult).(firstName := "Updated");

    var r4 := service.FindUsersByBirthDateRange(Date(2000, 1, 1), Date(2000, 12, 31));
    assert r4.Success? && Project(1, service.users[1]) in r4.value;
    var r5 := service.FindUsersByBirthDateRange(Date(2000, 12, 31), Date(2000, 1, 1));
    assert r5 == Failure(InvalidDateRange);

    var d1 := service.RemoveUser(1);
    assert d1 == Done && service.users == map[];
    var d2 := service.RemoveUser(1);
    assert d2 == Fail(UserNotFound(1));
  }
}
