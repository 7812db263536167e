/** The one-time-code classes as one request runs them: a database session, the repository, the unit
    of work, the confirmation service and the handlers. Requests that interleave are the subject of
    module OtpProtocol, which uses the same row functions. */
module OtpSession {
  import opened Options
  import opened OtpTable
  import opened Accounts

  datatype Db = Db(otps: Table, users: map<UserId, User>)

  /** `working` is what the session sees, `committed` what every later request will see. */
  class Session {
    var committed: Db
    var working: Db

    constructor (db: Db)
      ensures committed == working == db
    {
      committed, working := db, db;
    }
  }

  class OrmUnitOfWork {
    const session: Session

    constructor (session: Session)
      ensures this.session == session
    {
      this.session := session;
    }

    method Rollback()
      modifies session`working
      ensures session.working == session.committed
    {
      session.working := session.committed;
    }

    /** Leaving the `async with` block: commit unless an exception is passing through. A commit that
        fails raises, and closing the session then discards the transaction. */
    method Exit(raising: bool, commitFails: bool) returns (raised: bool)
      modifies session
      ensures raised == (raising || commitFails)
      ensures session.committed == if raised then old(session.committed) else old(session.working)
      ensures session.working == session.committed
    {
      if raising || commitFails {
        session.working := session.committed;
      } else {
        session.committed := session.working;
      }
      raised := raising || commitFails;
    }
  }

  class OtpRepository {
    const session: Session

    constructor (session: Session)
      ensures this.session == session
    {
      this.session := session;
    }

    method Create(id: RowId, row: Row)
      requires id !in session.working.otps
      modifies session`working
      ensures session.working == old(session.working).(otps := old(session.working.otps)[id := row])
    {
      session.working := session.working.(otps := session.working.otps[id := row]);
    }

    method FindActiveForContent(key: Key, code: string) returns (found: Option<RowId>)
      ensures found.None? ==> NoMatch(session.working.otps, key, code)
      ensures found.Some? ==> IsNewestMatch(session.working.otps, key, code, found.value)
      ensures found.None? ==>
                forall id :: id in session.working.otps && session.working.otps[id].key == key ==>
                  session.working.otps[id].code != code
      ensures found.Some? ==>
                && found.value in session.working.otps
                && session.working.otps[found.value].key == key && session.working.otps[found.value].code == code
                && forall id :: id in session.working.otps && session.working.otps[id].key == key
                                && session.working.otps[id].code == code ==>
                     session.working.otps[id].createdAt <= session.working.otps[found.value].createdAt
    {
      var t := session.working.otps;
      NewestMatchExists(t, key, code);
      if NoMatch(t, key, code) {
        return None;
      }
      var id :| id in t && IsNewestMatch(t, key, code, id);
      return Some(id);
    }

    /** One guarded UPDATE; the caller learns whether it changed the row. */
    method ConsumeById(id: RowId, epoch: int) returns (won: bool)
      modifies session`working
      ensures won <==>
                && id in old(session.working.otps)
                && old(session.working.otps)[id].usedAt.None?
                && epoch <= old(session.working.otps)[id].expiresAt
      ensures session.working.users == old(session.working.users)
      ensures session.working.otps ==
              if won then
                old(session.working.otps)[id := old(session.working.otps)[id].(usedAt := Some(epoch), verified := true)]
              else old(session.working.otps)
    {
      var t := session.working.otps;
      won := id in t && Consumable(t[id], epoch);
      if won {
        session.working := session.working.(otps := t[id := Spent(t[id], epoch)]);
      }
    }

    /** Whether a code issued now would come within a cooldown of another one: the answer is no exactly when
        every row of the key, used or not, is more than a minute older than this transaction. */
    method HasRecentIssue(key: Key, txStart: nat) returns (recent: bool)
      ensures !recent <==>
                forall id :: id in session.working.otps && session.working.otps[id].key == key ==>
                  session.working.otps[id].createdAt + 60_000_000 < txStart
    {
      recent := RecentIssue(session.working.otps, key, txStart - Cooldown(key.kind));
    }

    /** Every unused row of the key is used up, unverified, at this epoch; no other row and no account
        changes, and none of the key's codes can be spent any more. */
    method InvalidatePending(key: Key, epoch: int)
      modifies session`working
      ensures session.working.users == old(session.working.users)
      ensures session.working.otps.Keys == old(session.working.otps.Keys)
      ensures forall id :: id in session.working.otps ==>
                var before, after := old(session.working.otps)[id], session.working.otps[id];
                if before.key == key && before.usedAt.None? then after == before.(usedAt := Some(epoch)) else after == before
      ensures forall id, at: int :: id in session.working.otps && session.working.otps[id].key == key ==>
                !Consumable(session.working.otps[id], at)
    {
      session.working := session.working.(otps := BurnPending(session.working.otps, key, epoch));
    }
  }

  datatype OtpError = InvalidOtp | AlreadyUsed | Expired | CoolingDown(minutes: nat)

  /** An answer, or the exception that left the call. */
  datatype Reply<+T> = Answer(result: Result<T, OtpError>) | Raised

  /** What a successful issue leaves in the table; `created` is the clock at the flush of the new row. */
  function Issued(t: Table, key: Key, code: string, target: string, id: RowId, created: nat, epoch: int): Table {
    BurnPending(t, key, epoch)[id := NewRow(key, code, target, created, epoch)]
  }

  class UserConfirmationService {
    const repo: OtpRepository

    constructor (repo: OtpRepository)
      ensures this.repo == repo
    {
      this.repo := repo;
    }

    /** Three readings of the clock: the transaction's start, against which the cooldown is checked, the one
        that dates the expiry, and the one that stamps the new row when it is flushed. The new code can be spent for
        fifteen minutes after the second reading, up to the end of its last second, and not later. */
    method Issue(key: Key, target: string, code: string, id: RowId, txStart: nat, now: nat, created: nat)
      returns (r: Result<string, OtpError>)
      requires id !in repo.session.working.otps && txStart <= created
      modifies repo.session`working
      ensures r.Ok? <==> !RecentIssue(old(repo.session.working.otps), key, txStart - Cooldown(key.kind))
      ensures r.Ok? <==>
                forall other :: other in old(repo.session.working.otps) && old(repo.session.working.otps)[other].key == key ==>
                  old(repo.session.working.otps)[other].createdAt + 60_000_000 < txStart
      ensures r.Ok? ==>
                && r.value == code
                && repo.session.working.otps ==
                   Issued(old(repo.session.working.otps), key, code, target, id, created, Epoch(now))
                && repo.session.working.users == old(repo.session.working.users)
      ensures r.Ok? ==>
                forall other :: other in old(repo.session.working.otps) && old(repo.session.working.otps)[other].key == key ==>
                  old(repo.session.working.otps)[other].createdAt + 60_000_000 < repo.session.working.otps[id].createdAt
      ensures r.Ok? ==>
                && id in repo.session.working.otps
                && repo.session.working.otps[id] == Row(key, code, target, created, now / 1_000_000 + 900, None, false)
                && (forall later: nat :: now <= later <= now + 900_000_000 ==>
                      Consumable(repo.session.working.otps[id], Epoch(later)))
                && (forall later: nat :: now + 901_000_000 <= later ==>
                      !Consumable(repo.session.working.otps[id], Epoch(later)))
      ensures r.Err? ==>
                && r.error == CoolingDown(1)
                && repo.session.working == old(repo.session.working)
    {
      var recent := repo.HasRecentIssue(key, txStart);
      if recent {
        return Err(CoolingDown(CooldownMinutes(key.kind)));
      }
      var epoch := Epoch(now);
      ghost var before := repo.session.working.otps;
      repo.InvalidatePending(key, epoch);
      assert repo.session.working.otps == BurnPending(before, key, epoch);
      repo.Create(id, NewRow(key, code, target, created, epoch));
      return Ok(code);
    }

    /** Only the email kind has a confirmation event; any other kind raises before reading. The code
        is accepted exactly when the newest matching row is unused and not expired at the second
        clock reading, and then that row alone changes. */
    method Confirm(key: Key, code: string, nowCheck: nat, nowConsume: nat, publishFails: bool)
      returns (r: Reply<UserId>, ghost found: Option<RowId>)
      requires AllHonest(repo.session.working.otps)
      requires nowCheck <= nowConsume
      modifies repo.session`working
      ensures repo.session.working.users == old(repo.session.working.users)
      ensures key.kind == ForgotPassword ==> r == Raised && repo.session.working == old(repo.session.working)
      ensures key.kind == EmailConfirmation ==>
                var t := old(repo.session.working.otps);
                if found.None? then
                  NoMatch(t, key, code) && r == Answer(Err(InvalidOtp)) && repo.session.working.otps == t
                else
                  && IsNewestMatch(t, key, code, found.value)
                  && (if Consumable(t[found.value], Epoch(nowConsume)) then
                        && r == (if publishFails then Raised else Answer(Ok(key.owner)))
                        && repo.session.working.otps == t[found.value := Spent(t[found.value], Epoch(nowConsume))]
                      else
                        && r == Answer(Err(if Live(t[found.value]) && t[found.value].expiresAt < Epoch(nowCheck)
                                           then Expired else AlreadyUsed))
                        && repo.session.working.otps == t)
    {
      found := None;
      if key.kind != EmailConfirmation {
        return Raised, None;
      }
      var hit := repo.FindActiveForContent(key, code);
      found := hit;
      if hit.None? {
        return Answer(Err(InvalidOtp)), hit;
      }
      var row := repo.session.working.otps[hit.value];
      if row.usedAt.Some? || row.verified {
        return Answer(Err(AlreadyUsed)), hit;
      }
      if row.expiresAt < Epoch(nowCheck) {
        return Answer(Err(Expired)), hit;
      }
      var won := repo.ConsumeById(hit.value, Epoch(nowConsume));
      if !won {
        return Answer(Err(AlreadyUsed)), hit;
      }
      if publishFails {
        return Raised, hit;
      }
      return Answer(Ok(row.key.owner)), hit;
    }
  }

  /** The loaded user; attribute writes go through to the session's row. */
  class UserAggregate {
    const session: Session
    const id: UserId

    constructor (session: Session, id: UserId)
      ensures this.session == session && this.id == id
    {
      this.session, this.id := session, id;
    }

    method ConfirmEmail()
      requires id in session.working.users
      modifies session`working
      ensures session.working == old(session.working).(
                users := old(session.working.users)[id := EmailConfirmed(old(session.working.users)[id])])
      ensures forall u :: u in session.working.users ==>
                var before, after := old(session.working.users)[u], session.working.users[u];
                after == if u == id then before.(emailConfirmed := true, isActive := true) else before
    {
      session.working := session.working.(users := session.working.users[id := EmailConfirmed(session.working.users[id])]);
    }

    method SetPassword(hash: string)
      requires id in session.working.users
      modifies session`working
      ensures session.working == old(session.working).(
                users := old(session.working.users)[id := WithPassword(old(session.working.users)[id], hash)])
      ensures forall u :: u in session.working.users ==>
                var before, after := old(session.working.users)[u], session.working.users[u];
                after == if u == id then before.(password := hash) else before
    {
      session.working := session.working.(users := session.working.users[id := WithPassword(session.working.users[id], hash)]);
    }
  }

  method GetAggregateByEmail(session: Session, email: string) returns (user: Option<UserAggregate>)
    ensures user.None? ==> forall u | u in session.working.users :: session.working.users[u].email != email
    ensures user.Some? ==> && user.value.session == session
                           && user.value.id in session.working.users
                           && session.working.users[user.value.id].email == email
  {
    var users := session.working.users;
    if u :| u in users && users[u].email == email {
      var aggregate := new UserAggregate(session, u);
      return Some(aggregate);
    }
    return None;
  }

  /** What spending row `id` for its owner does to the database, in one transaction. */
  function EmailConfirmedDb(db: Db, owner: UserId, id: RowId, epoch: int): Db
    requires id in db.otps && owner in db.users
  {
    Db(db.otps[id := Spent(db.otps[id], epoch)], db.users[owner := EmailConfirmed(db.users[owner])])
  }

  function PasswordResetDb(db: Db, owner: UserId, id: RowId, epoch: int, hash: string): Db
    requires id in db.otps && owner in db.users
  {
    Db(db.otps[id := Spent(db.otps[id], epoch)], db.users[owner := WithPassword(db.users[owner], hash)])
  }

  /** The code resolves to a row that can still be spent at `epoch`. */
  ghost predicate Accepts(db: Db, key: Key, code: string, epoch: int, id: RowId) {
    IsNewestMatch(db.otps, key, code, id) && Consumable(db.otps[id], epoch)
  }

  class ConfirmEmailCommandHandler {
    const service: UserConfirmationService
    const uow: OrmUnitOfWork

    constructor (service: UserConfirmationService, uow: OrmUnitOfWork)
      requires service.repo.session == uow.session
      ensures this.service == service && this.uow == uow
    {
      this.service, this.uow := service, uow;
    }

    /** All or nothing: either the row is spent and the account confirmed together, or nothing that
        was committed changes, whatever fails on the way. */
    method Call(email: string, code: string, nowCheck: nat, nowConsume: nat, publishFails: bool, commitFails: bool)
      returns (r: Reply<()>, ghost owner: Option<UserId>, ghost spent: Option<RowId>)
      requires service.repo.session == uow.session
      requires uow.session.working == uow.session.committed && AllHonest(uow.session.committed.otps)
      requires nowCheck <= nowConsume
      modifies uow.session
      ensures uow.session.working == uow.session.committed
      ensures r == Answer(Ok(())) <==> spent.Some? && !publishFails && !commitFails
      ensures owner.None? ==> spent.None?
      ensures owner.None? ==>
                forall u | u in old(uow.session.committed.users) :: old(uow.session.committed.users)[u].email != email
      ensures owner.Some? ==>
                var key := Key(owner.value, EmailConfirmation);
                && owner.value in old(uow.session.committed.users)
                && (spent.Some? ==> Accepts(old(uow.session.committed), key, code, Epoch(nowConsume), spent.value))
                && (spent.None? ==> Unusable(old(uow.session.committed).otps, key, code, Epoch(nowConsume)))
      ensures uow.session.committed ==
              if r == Answer(Ok(())) then
                EmailConfirmedDb(old(uow.session.committed), owner.value, spent.value, Epoch(nowConsume))
              else old(uow.session.committed)
      ensures r == Answer(Ok(())) ==>
                && owner.value in old(uow.session.committed.users)
                && uow.session.committed.users.Keys == old(uow.session.committed.users.Keys)
                && (forall u :: u in uow.session.committed.users ==>
                      var before, after := old(uow.session.committed.users)[u], uow.session.committed.users[u];
                      after == if u == owner.value then before.(emailConfirmed := true, isActive := true) else before)
      ensures r == Answer(Ok(())) ==>
                && spent.value in old(uow.session.committed.otps)
                && var row := old(uow.session.committed.otps)[spent.value];
                && row.key == Key(owner.value, EmailConfirmation) && row.code == code
                && row.usedAt.None? && nowConsume / 1_000_000 <= row.expiresAt
                && uow.session.committed.otps ==
                   old(uow.session.committed.otps)[
                     spent.value := row.(usedAt := Some(nowConsume / 1_000_000), verified := true)]
    {
      owner, spent := None, None;
      var user := GetAggregateByEmail(uow.session, email);
      if user.None? {
        var raised := uow.Exit(false, commitFails);
        r := if raised then Raised else Answer(Err(InvalidOtp));
        return;
      }
      owner := Some(user.value.id);
      var reply, found := service.Confirm(Key(user.value.id, EmailConfirmation), code, nowCheck, nowConsume, publishFails);
      if reply.Raised? {
        spent := found;
        var raised := uow.Exit(true, commitFails);
        return Raised, owner, spent;
      }
      if reply.result.Err? {
        uow.Rollback();
        var raised := uow.Exit(false, commitFails);
        r := if raised then Raised else Answer(Err(reply.result.error));
        return;
      }
      spent := found;
      user.value.ConfirmEmail();
      var raised := uow.Exit(false, commitFails);
      r := if raised then Raised else Answer(Ok(()));
    }
  }

  class ForgotPasswordStep2CommandHandler {
    const repo: OtpRepository

    constructor (repo: OtpRepository)
      ensures this.repo == repo
    {
      this.repo := repo;
    }

    /** Verification without spending: nothing is modified, and the code is accepted exactly when the
        newest matching row is unused and unexpired now. */
    method Call(email: string, code: string, now: nat) returns (r: Result<UserId, OtpError>, ghost owner: Option<UserId>)
      ensures r.Ok? ==>
                && r.value in repo.session.working.users && repo.session.working.users[r.value].email == email
                && exists id :: Accepts(repo.session.working, Key(r.value, ForgotPassword), code, Epoch(now), id)
      ensures owner.None? ==> r == Err(InvalidOtp)
      ensures owner.None? ==>
                forall u | u in repo.session.working.users :: repo.session.working.users[u].email != email
      ensures owner.Some? && r == Err(Expired) ==>
                exists id ::
                  && IsNewestMatch(repo.session.working.otps, Key(owner.value, ForgotPassword), code, id)
                  && repo.session.working.otps[id].usedAt.None? && repo.session.working.otps[id].expiresAt < Epoch(now)
      ensures owner.Some? ==>
                && owner.value in repo.session.working.users
                && repo.session.working.users[owner.value].email == email
                && var key := Key(owner.value, ForgotPassword);
                   if r.Ok? then
                     r.value == owner.value && exists id :: Accepts(repo.session.working, key, code, Epoch(now), id)
                   else
                     r.error in {InvalidOtp, Expired} && Unusable(repo.session.working.otps, key, code, Epoch(now))
    {
      owner := None;
      var user := GetAggregateByEmail(repo.session, email);
      if user.None? {
        return Err(InvalidOtp), None;
      }
      owner := Some(user.value.id);
      var key := Key(user.value.id, ForgotPassword);
      var hit := repo.FindActiveForContent(key, code);
      if hit.None? || repo.session.working.otps[hit.value].usedAt.Some? {
        return Err(InvalidOtp), owner;
      }
      if repo.session.working.otps[hit.value].expiresAt < Epoch(now) {
        return Err(Expired), owner;
      }
      assert Accepts(repo.session.working, key, code, Epoch(now), hit.value);
      return Ok(user.value.id), owner;
    }
  }

  class ForgotPasswordStep3CommandHandler {
    const repo: OtpRepository
    const uow: OrmUnitOfWork

    constructor (repo: OtpRepository, uow: OrmUnitOfWork)
      requires repo.session == uow.session
      ensures this.repo == repo && this.uow == uow
    {
      this.repo, this.uow := repo, uow;
    }

    /** The code is spent and the password set in one transaction, or neither happens. */
    method Call(email: string, code: string, hash: string, nowCheck: nat, nowConsume: nat, publishFails: bool, commitFails: bool)
      returns (r: Reply<()>, ghost owner: Option<UserId>, ghost spent: Option<RowId>)
      requires repo.session == uow.session
      requires uow.session.working == uow.session.committed
      requires nowCheck <= nowConsume
      modifies uow.session
      ensures uow.session.working == uow.session.committed
      ensures r == Answer(Ok(())) <==> spent.Some? && !publishFails && !commitFails
      ensures owner.None? ==> spent.None?
      ensures owner.None? ==>
                forall u | u in old(uow.session.committed.users) :: old(uow.session.committed.users)[u].email != email
      ensures owner.Some? ==>
                var key := Key(owner.value, ForgotPassword);
                && owner.value in old(uow.session.committed.users)
                && (spent.Some? ==> Accepts(old(uow.session.committed), key, code, Epoch(nowConsume), spent.value))
                && (spent.None? ==> Unusable(old(uow.session.committed).otps, key, code, Epoch(nowConsume)))
      ensures uow.session.committed ==
              if r == Answer(Ok(())) then
                PasswordResetDb(old(uow.session.committed), owner.value, spent.value, Epoch(nowConsume), hash)
              else old(uow.session.committed)
      ensures r == Answer(Ok(())) ==>
                && owner.value in old(uow.session.committed.users)
                && uow.session.committed.users.Keys == old(uow.session.committed.users.Keys)
                && (forall u :: u in uow.session.committed.users ==>
                      var before, after := old(uow.session.committed.users)[u], uow.session.committed.users[u];
                      after == if u == owner.value then before.(password := hash) else before)
      ensures r == Answer(Ok(())) ==>
                && spent.value in old(uow.session.committed.otps)
                && var row := old(uow.session.committed.otps)[spent.value];
                && row.key == Key(owner.value, ForgotPassword) && row.code == code
                && row.usedAt.None? && nowConsume / 1_000_000 <= row.expiresAt
                && uow.session.committed.otps ==
                   old(uow.session.committed.otps)[
                     spent.value := row.(usedAt := Some(nowConsume / 1_000_000), verified := true)]
    {
      owner, spent := None, None;
      var user := GetAggregateByEmail(uow.session, email);
      if user.None? {
        var raised := uow.Exit(false, commitFails);
        r := if raised then Raised else Answer(Err(InvalidOtp));
        return;
      }
      owner := Some(user.value.id);
      var hit := repo.FindActiveForContent(Key(user.value.id, ForgotPassword), code);
      if hit.None? {
        var raised := uow.Exit(false, commitFails);
        r := if raised then Raised else Answer(Err(InvalidOtp));
        return;
      }
      if repo.session.working.otps[hit.value].expiresAt < Epoch(nowCheck) {
        var raised := uow.Exit(false, commitFails);
        r := if raised then Raised else Answer(Err(Expired));
        return;
      }
      var won := repo.ConsumeById(hit.value, Epoch(nowConsume));
      if !won {
        uow.Rollback();
        var raised := uow.Exit(false, commitFails);
        r := if raised then Raised else Answer(Err(InvalidOtp));
        return;
      }
      spent := hit;
      user.value.SetPassword(hash);
      var raised := uow.Exit(publishFails, commitFails);
      r := if raised then Raised else Answer(Ok(()));
    }
  }
}
