/** The daily job that deletes accounts whose e-mail address was not verified within four weeks of
    registration. */
module UserSweep {
  import opened Common
  import opened Docs
  import opened Sweep

  /** `User.find({ isAccountVerified: false })`. */
  function Unverified(): Doc
  {
    map["isAccountVerified" := Bool(false)]
  }

  /** One run of the job at time `now`: the unverified accounts are fetched once, then each is
      examined in order against that one time and deleted by id when it is at least four weeks old.
      The ids it reports as removed come back in the order of removal. */
  method SweepUnverifiedUsers(db: Database, now: int) returns (removed: seq<Value>)
    modifies db`users
    ensures db.users == SweepFrom(old(db.users), FindAll(old(db.users), Unverified()), "createdAt", now)
    ensures removed == OverdueIds(FindAll(old(db.users), Unverified()), "createdAt", now)
  {
    var unverifiedUsers := FindAll(db.users, Unverified());
    removed := [];
    for i := 0 to |unverifiedUsers|
      invariant db.users == SweepFrom(old(db.users), unverifiedUsers[..i], "createdAt", now)
      invariant removed == OverdueIds(unverifiedUsers[..i], "createdAt", now)
    {
      assert unverifiedUsers[..i + 1][..i] == unverifiedUsers[..i];
      if Overdue(unverifiedUsers[i], "createdAt", now) {
        db.users := DeleteById(db.users, IdOf(unverifiedUsers[i]));
        removed := removed + [IdOf(unverifiedUsers[i])];
      }
    }
    assert unverifiedUsers[..|unverifiedUsers|] == unverifiedUsers;
  }

  /** With unique ids, a run deletes exactly the unverified accounts created at least four weeks
      before `now`: verified accounts and younger unverified ones all stay. */
  lemma SweepDeletesExactlyStaleUnverified(users: seq<Doc>, now: int)
    requires UniqueIds(users)
    ensures forall u :: u in SweepFrom(users, FindAll(users, Unverified()), "createdAt", now) <==>
      u in users && !(Get(u, "isAccountVerified") == Bool(false) && Overdue(u, "createdAt", now))
  {
    SweepRemovesExactlyOverdue(users, Unverified(), "createdAt", now);
    assert forall u :: Matches(u, Unverified()) <==> Get(u, "isAccountVerified") == Bool(false);
  }
}
