/**
 The user table as the service queries it: a map from id to record. Ids are
 handed out in increasing order, so the table's natural row order is
 ascending id.
 */
module UserStore {
  import opened Dates
  import opened UserModel

  type Table = map<int, User>

  /** The emails of the stored users. */
  ghost function Emails(users: Table): (emails: set<string>)
  {
    set id | id in users :: users[id].email
  }

  /** `existsByEmail`: some stored user has this email. */
  predicate EmailTaken(users: Table, email: string): (taken: bool)
    ensures taken <==> email in Emails(users)
  {
    exists id :: id in users && users[id].email == email
  }

  /** No two stored users share an email. */
  ghost predicate UniqueEmails(users: Table)
  {
    forall i, j :: i in users && j in users && users[i].email == users[j].email ==> i == j
  }

  /** `sub` is `s` with some elements left out, the rest kept in order. */
  predicate Subsequence(sub: seq<int>, s: seq<int>)
    decreases |s|
  {
    |sub| == 0
    || (|s| > 0 && ((sub[0] == s[0] && Subsequence(sub[1..], s[1..])) || Subsequence(sub, s[1..])))
  }

  predicate Increasing(ids: seq<int>)
  {
    forall i, j :: 0 <= i < j < |ids| ==> ids[i] < ids[j]
  }

  /** The ids in `[0, n)` that are in the table, in ascending order. */
  function IdsBelow(users: Table, n: nat): (r: seq<int>)
    ensures forall id :: id in r <==> id in users && 0 <= id < n
    ensures Increasing(r)
  {
    if n == 0 then []
    else
      var rest := IdsBelow(users, n - 1);
      assert forall i :: 0 <= i < |rest| ==> rest[i] in rest;
      assert forall i :: 0 <= i < |rest| ==> rest[i] < n - 1;
      if n - 1 in users then rest + [n - 1] else rest
  }

  /** A subsequence of an ascending sequence is ascending, and draws its elements from it. */
  lemma {:induction false} SubsequenceOfIncreasing(sub: seq<int>, s: seq<int>)
    requires Subsequence(sub, s) && Increasing(s)
    ensures Increasing(sub)
    ensures forall x :: x in sub ==> x in s
    decreases |s|
  {
    if |sub| > 0 {
      if sub[0] == s[0] && Subsequence(sub[1..], s[1..]) {
        SubsequenceOfIncreasing(sub[1..], s[1..]);
        assert forall k :: 1 <= k < |s| ==> s[0] < s[k];
        assert forall x :: x in s[1..] ==> s[0] < x;
        assert forall k :: 1 <= k < |sub| ==> sub[k] in sub[1..];
      } else {
        SubsequenceOfIncreasing(sub, s[1..]);
      }
    }
  }

  /** The rows among `ids` whose birth date lies in the inclusive window, in the order of `ids`. */
  function FilterByBirthDate(users: Table, ids: seq<int>, start: Date, end: Date): (r: seq<int>)
    requires forall id :: id in ids ==> id in users
    ensures forall id :: id in r <==> id in ids && InRange(users[id].birthDate, start, end)
    ensures Subsequence(r, ids)
  {
    if |ids| == 0 then []
    else
      assert ids[0] in ids && forall id :: id in ids <==> id == ids[0] || id in ids[1..];
      var rest := FilterByBirthDate(users, ids[1..], start, end);
      if InRange(users[ids[0]].birthDate, start, end) then
        assert ([ids[0]] + rest)[1..] == rest;
        [ids[0]] + rest
      else
        rest
  }

  /**
   `findByBirthDateBetween(start, end)`: the ids of the stored users born
   between `start` and `end` inclusive, in row order. `bound` is an upper
   bound on the stored ids.
   */
  function FindByBirthDateBetween(users: Table, bound: nat, start: Date, end: Date): (r: seq<int>)
    requires forall id :: id in users ==> 0 <= id < bound
    ensures forall id :: id in r <==> id in users && InRange(users[id].birthDate, start, end)
    ensures Increasing(r)
  {
    var ids := IdsBelow(users, bound);
    var r := FilterByBirthDate(users, ids, start, end);
    SubsequenceOfIncreasing(r, ids);
    r
  }

  /** One view per row, in the same order (the stream `map` over the result). */
  function ViewsOf(users: Table, ids: seq<int>): (r: seq<UserView>)
    requires forall id :: id in ids ==> id in users
    ensures |r| == |ids|
    ensures forall i :: 0 <= i < |ids| ==> r[i] == Project(ids[i], users[ids[i]])
  {
    if |ids| == 0 then [] else [Project(ids[0], users[ids[0]])] + ViewsOf(users, ids[1..])
  }

  /** Adding a record whose email is not taken keeps emails unique. */
  lemma InsertKeepsEmailsUnique(users: Table, id: int, u: User)
    requires UniqueEmails(users)
    requires !EmailTaken(users, u.email)
    ensures UniqueEmails(users[id := u])
  {
  }

  /**
   Overwriting a record without the email check can break uniqueness: the
   full update is not guarded the way creation is.
   */
  lemma {:induction false} OverwriteCanDuplicateEmail(u: User, v: User)
    requires u.email != v.email
    ensures UniqueEmails(map[1 := u, 2 := v])
    ensures !UniqueEmails(map[1 := u, 2 := v][2 := v.(email := u.email)])
  {
    var after := map[1 := u, 2 := v][2 := v.(email := u.email)];
    assert after[1].email == after[2].email;
  }

  /** Removing a record keeps emails unique. */
  lemma RemoveKeepsEmailsUnique(users: Table, id: int)
    requires UniqueEmails(users)
    ensures UniqueEmails(users - {id})
  {
  }
}
