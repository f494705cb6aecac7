/** The chat server's state changes: the socket `message` handler, the startup
    seeding of the car catalog from the CSV rows and the creation of the admin
    user. The database is an in-memory store of messages, users and cars; the
    outcome of every database write, the JWT verification and the outside
    services of the resolver are parameters. */
module Server {
  import opened Wrappers
  import opened JsString
  import opened CarModel
  import ResponseHandler

  /** Document ids. Messages and users draw them from one counter, standing for
      fresh ObjectIds. */
  type DocId = nat

  datatype Message = Message(id: DocId, text: string, response: string)

  datatype User = User(name: string, email: string, password: string, isAdmin: bool, messages: seq<DocId>)

  /** What the client sends on the `message` event. */
  datatype Inbound = Inbound(text: string, token: string)

  datatype Payload =
    | Greeting(greeting: string)
    | Saved(message: Message)
    | ErrorShape(text: string, response: string)

  /** One `socket.emit(event, payload)`. */
  datatype Emission = Emission(event: string, payload: Payload)

  /** How a database write ends: it succeeds, or it throws with a message. */
  datatype DbOutcome = Done | DbFailed(reason: string)

  const MessageEvent := "message"
  const ResponseEvent := "response"
  const WelcomeText := "Welcome to the AI chatbot"
  const HandlerErrorText := "There was an error processing your request."
  const AdminName := "Car Bot Admin"

  /** A snapshot of the database. */
  datatype Db = Db(messages: map<DocId, Message>, users: map<DocId, User>, cars: seq<Car>, nextId: DocId)

  /** Every stored id is below the counter, a message is stored under its own id,
      and every id in a user's history names a stored message. */
  predicate Consistent(db: Db) {
    && (forall k :: k in db.messages ==> k < db.nextId && db.messages[k].id == k)
    && (forall u :: u in db.users ==> u < db.nextId)
    && (forall u, i :: u in db.users && 0 <= i < |db.users[u].messages| ==> db.users[u].messages[i] in db.messages)
  }

  // ---------------------------------------------------------------------------
  // The socket `message` handler

  /** The store and the payload emitted on `response` after one inbound message. */
  datatype Step = Step(db: Db, payload: Payload)

  /** The handler on one message. `verify` is `jwt.verify` (the user id or the
      error's message), `catalogUp` says whether the resolver's catalog read
      succeeds, `save` and `update` are the outcomes of `newMessage.save()` and of
      the `$push` onto the user's history. */
  function OnMessageSpec(db: Db, msg: Inbound, verify: string -> Result<DocId, string>,
                         wit: string -> Option<ResponseHandler.WitData>,
                         unsplash: string -> Option<seq<string>>, catalogUp: bool,
                         save: DbOutcome, update: DbOutcome): Step
  {
    match verify(msg.token)
    case Failure(e) => Step(db, ErrorShape(HandlerErrorText, e))
    case Success(uid) =>
      var response := ResponseHandler.GetResponse(msg.text, wit, unsplash, if catalogUp then Some(db.cars) else None);
      var m := Message(db.nextId, msg.text, response);
      if save.DbFailed? then Step(db, ErrorShape(HandlerErrorText, save.reason))
      else
        var saved := db.(messages := db.messages[m.id := m], nextId := db.nextId + 1);
        if update.DbFailed? then Step(saved, ErrorShape(HandlerErrorText, update.reason))
        else if uid in saved.users then
          var u := saved.users[uid];
          Step(saved.(users := saved.users[uid := u.(messages := u.messages + [m.id])]), Saved(m))
        else
          Step(saved, Saved(m))
  }

  /** A token that does not verify changes nothing and answers with the error shape
      carrying the verifier's message. */
  lemma TokenFailureChangesNothing(db: Db, msg: Inbound, verify: string -> Result<DocId, string>,
                                   wit: string -> Option<ResponseHandler.WitData>,
                                   unsplash: string -> Option<seq<string>>, catalogUp: bool,
                                   save: DbOutcome, update: DbOutcome)
    requires verify(msg.token).Failure?
    ensures OnMessageSpec(db, msg, verify, wit, unsplash, catalogUp, save, update)
            == Step(db, ErrorShape(HandlerErrorText, verify(msg.token).error))
  {
  }

  /** With a valid token and a successful save, exactly one message is added under a
      fresh id, holding the user's text and the resolver's answer; if the save fails,
      no message is added. */
  lemma OneMessageSaved(db: Db, msg: Inbound, verify: string -> Result<DocId, string>,
                        wit: string -> Option<ResponseHandler.WitData>,
                        unsplash: string -> Option<seq<string>>, catalogUp: bool,
                        save: DbOutcome, update: DbOutcome)
    requires Consistent(db) && verify(msg.token).Success?
    ensures var after := OnMessageSpec(db, msg, verify, wit, unsplash, catalogUp, save, update).db;
            var response := ResponseHandler.GetResponse(msg.text, wit, unsplash, if catalogUp then Some(db.cars) else None);
            if save == Done then
              && db.nextId !in db.messages
              && after.messages == db.messages[db.nextId := Message(db.nextId, msg.text, response)]
            else after == db
  {
  }

  /** On full success the new message id goes at the end of the verified user's
      history; no other user changes, and no user appears or disappears. */
  lemma HistoryAppended(db: Db, msg: Inbound, verify: string -> Result<DocId, string>,
                        wit: string -> Option<ResponseHandler.WitData>,
                        unsplash: string -> Option<seq<string>>, catalogUp: bool)
    requires verify(msg.token).Success?
    ensures var after := OnMessageSpec(db, msg, verify, wit, unsplash, catalogUp, Done, Done).db;
            var uid := verify(msg.token).value;
            && after.users.Keys == db.users.Keys
            && (uid in db.users ==> after.users[uid] == db.users[uid].(messages := db.users[uid].messages + [db.nextId]))
            && (forall u :: u in db.users && u != uid ==> after.users[u] == db.users[u])
  {
  }

  /** On full success the payload emitted is the stored message itself. */
  lemma PayloadIsSavedMessage(db: Db, msg: Inbound, verify: string -> Result<DocId, string>,
                              wit: string -> Option<ResponseHandler.WitData>,
                              unsplash: string -> Option<seq<string>>, catalogUp: bool)
    requires verify(msg.token).Success?
    ensures var step := OnMessageSpec(db, msg, verify, wit, unsplash, catalogUp, Done, Done);
            && step.payload.Saved?
            && step.db.messages[db.nextId] == step.payload.message
            && step.payload.message.text == msg.text
  {
  }

  /** A failed history update still answers with the error shape, and the message
      saved before it stays stored while no history changes. */
  lemma UpdateFailureKeepsMessage(db: Db, msg: Inbound, verify: string -> Result<DocId, string>,
                                  wit: string -> Option<ResponseHandler.WitData>,
                                  unsplash: string -> Option<seq<string>>, catalogUp: bool, reason: string)
    requires verify(msg.token).Success?
    ensures var step := OnMessageSpec(db, msg, verify, wit, unsplash, catalogUp, Done, DbFailed(reason));
            && step.payload == ErrorShape(HandlerErrorText, reason)
            && db.nextId in step.db.messages
            && step.db.users == db.users
  {
  }

  /** Whatever happens, a message never answers with the greeting, and the
      store stays consistent. */
  lemma OnMessagePreservesConsistent(db: Db, msg: Inbound, verify: string -> Result<DocId, string>,
                                     wit: string -> Option<ResponseHandler.WitData>,
                                     unsplash: string -> Option<seq<string>>, catalogUp: bool,
                                     save: DbOutcome, update: DbOutcome)
    requires Consistent(db)
    ensures var step := OnMessageSpec(db, msg, verify, wit, unsplash, catalogUp, save, update);
            Consistent(step.db) && !step.payload.Greeting?
  {
    var step := OnMessageSpec(db, msg, verify, wit, unsplash, catalogUp, save, update);
    if verify(msg.token).Success? && save == Done {
      var uid := verify(msg.token).value;
      var saved := db.(messages := db.messages[db.nextId := step.db.messages[db.nextId]], nextId := db.nextId + 1);
      assert Consistent(saved);
      forall u, i | u in step.db.users && 0 <= i < |step.db.users[u].messages|
        ensures step.db.users[u].messages[i] in step.db.messages
      {
        if u == uid && update == Done && i == |db.users[u].messages| {
          assert step.db.users[u].messages[i] == db.nextId;
        } else {
          assert step.db.users[u].messages[i] == db.users[u].messages[i];
        }
      }
    }
  }

  // ---------------------------------------------------------------------------
  // Seeding the catalog from the CSV rows

  /** A parsed CSV row; a column the row lacks is None. */
  datatype CsvRow = CsvRow(
    brand: Option<string>,
    model: Option<string>,
    averageSellingPrice: Option<string>,
    fuelType: Option<string>,
    transmission: Option<string>,
    about: Option<string>)

  /** What the seeder logs for one row. `Rejected` is a save that failed validation,
      `SaveFailed` one the database refused. */
  datatype RowOutcome = Inserted | AlreadyExists | Rejected(paths: seq<string>) | SaveFailed

  /** The document `new Car({...})` is given: the price goes through `Number`. */
  function RowDoc(row: CsvRow): CarDoc {
    var price := match row.averageSellingPrice
                 case Some(p) => ParseNumber(p)
                 case None => None;
    CarDoc(row.brand, row.model, price, row.fuelType, row.transmission, row.about)
  }

  /** `Car.findOne({ brand, model })` finds a car: exact, case-sensitive equality on
      both fields. */
  predicate Present(cars: seq<Car>, row: CsvRow) {
    row.brand.Some? && row.model.Some?
    && exists j :: 0 <= j < |cars| && cars[j].brand == row.brand.value && cars[j].model == row.model.value
  }

  /** One iteration of the seeding loop; `dbFails` says the database refuses the save. */
  function SeedRow(cars: seq<Car>, row: CsvRow, dbFails: bool): (seq<Car>, RowOutcome) {
    if Present(cars, row) then (cars, AlreadyExists)
    else match Validate(RowDoc(row))
      case Failure(paths) => (cars, Rejected(paths))
      case Success(car) => if dbFails then (cars, SaveFailed) else (cars + [car], Inserted)
  }

  /** The catalog after the loop has run over `rows`; `fails` holds the indices of
      the rows whose save the database refuses. */
  function Seed(cars: seq<Car>, rows: seq<CsvRow>, fails: set<nat>): seq<Car>
    decreases |rows|
  {
    if rows == [] then cars
    else SeedRow(Seed(cars, rows[..|rows| - 1], fails), rows[|rows| - 1], |rows| - 1 in fails).0
  }

  /** What the loop logs for each of `rows`, in order. */
  function SeedLog(cars: seq<Car>, rows: seq<CsvRow>, fails: set<nat>): (log: seq<RowOutcome>)
    ensures |log| == |rows|
    decreases |rows|
  {
    if rows == [] then []
    else
      var init := rows[..|rows| - 1];
      SeedLog(cars, init, fails) + [SeedRow(Seed(cars, init, fails), rows[|rows| - 1], |rows| - 1 in fails).1]
  }

  /** What the loop does with row `i`, whatever happened to the rows before it: the
      row is looked up in the catalog as those rows left it, and it is inserted
      exactly when it is absent, passes validation and its own save goes through.
      A refused save of an earlier row does not stop the loop or block this row. */
  lemma {:induction false} SeedLogEntry(cars: seq<Car>, rows: seq<CsvRow>, fails: set<nat>, i: nat)
    requires i < |rows|
    ensures var before := Seed(cars, rows[..i], fails);
            var after := Seed(cars, rows[..i + 1], fails);
            var log := SeedLog(cars, rows, fails);
            var doc := Validate(RowDoc(rows[i]));
            && (log[i] == AlreadyExists <==> Present(before, rows[i]))
            && (log[i].Rejected? <==> !Present(before, rows[i]) && doc.Failure?)
            && (log[i] == SaveFailed <==> !Present(before, rows[i]) && doc.Success? && i in fails)
            && (log[i] == Inserted <==> !Present(before, rows[i]) && doc.Success? && i !in fails)
            && (log[i] == Inserted ==> after == before + [doc.value])
            && (log[i] != Inserted ==> after == before)
    decreases |rows|
  {
    var init := rows[..|rows| - 1];
    assert rows[..i + 1][..i] == rows[..i];
    if i < |init| {
      SeedLogEntry(cars, init, fails, i);
      assert init[i] == rows[i];
      assert init[..i] == rows[..i] && init[..i + 1] == rows[..i + 1];
      assert SeedLog(cars, rows, fails)[i] == SeedLog(cars, init, fails)[i];
    } else {
      assert rows[..i] == init;
    }
  }

  /** Where the loop stops: the first row whose `Car.findOne` lookup rejects, or
      `|rows|` when every lookup succeeds. The lookup sits outside the `try`, so a
      rejection ends the `'end'` handler and the later rows are never visited. */
  function FirstLookupFailure(rows: seq<CsvRow>, lookupFails: set<nat>): (stop: nat)
    ensures stop <= |rows|
    ensures stop < |rows| ==> stop in lookupFails
    ensures forall i :: 0 <= i < stop ==> i !in lookupFails
    decreases |rows|
  {
    if rows == [] then 0
    else
      var init := rows[..|rows| - 1];
      var prior := FirstLookupFailure(init, lookupFails);
      if prior < |init| then prior
      else if |init| in lookupFails then |init|
      else |rows|
  }

  /** A run cut short keeps what it inserted: the catalog after the first `k` rows
      is a prefix of the catalog after all of them, so the cars stored before a
      failed lookup stay, and every intermediate catalog is a prefix of the final
      one. */
  lemma {:induction false} SeedPrefix(cars: seq<Car>, rows: seq<CsvRow>, fails: set<nat>, k: nat)
    requires k <= |rows|
    ensures var partial := Seed(cars, rows[..k], fails);
            var full := Seed(cars, rows, fails);
            |partial| <= |full| && full[..|partial|] == partial
    decreases |rows|
  {
    if k < |rows| {
      var init := rows[..|rows| - 1];
      assert init[..k] == rows[..k];
      SeedPrefix(cars, init, fails, k);
      var before := Seed(cars, init, fails);
      var full := Seed(cars, rows, fails);
      assert full == before || full == before + [full[|full| - 1]];
    } else {
      assert rows[..k] == rows;
    }
  }

  /** No two catalog cars share a brand and model. */
  predicate UniqueKeys(cars: seq<Car>) {
    forall i, j :: 0 <= i < j < |cars| ==> !(cars[i].brand == cars[j].brand && cars[i].model == cars[j].model)
  }

  /** A row is settled when it is already present or can never pass validation. */
  predicate Settled(cars: seq<Car>, row: CsvRow) {
    Present(cars, row) || Validate(RowDoc(row)).Failure?
  }

  /** Seeding only appends: the cars already stored stay, in order, and every
      car added is the validated document of some row. */
  lemma {:induction false} SeedOnlyAppends(cars: seq<Car>, rows: seq<CsvRow>, fails: set<nat>)
    ensures var after := Seed(cars, rows, fails);
            && |cars| <= |after| <= |cars| + |rows|
            && after[..|cars|] == cars
            && forall k :: |cars| <= k < |after| ==>
                 exists i :: 0 <= i < |rows| && Validate(RowDoc(rows[i])) == Success(after[k])
    decreases |rows|
  {
    if rows != [] {
      var init := rows[..|rows| - 1];
      var row := rows[|rows| - 1];
      SeedOnlyAppends(cars, init, fails);
      var before := Seed(cars, init, fails);
      var after := Seed(cars, rows, fails);
      assert after == SeedRow(before, row, |rows| - 1 in fails).0;
      forall k | |cars| <= k < |after|
        ensures exists i :: 0 <= i < |rows| && Validate(RowDoc(rows[i])) == Success(after[k])
      {
        if k < |before| {
          var i :| 0 <= i < |init| && Validate(RowDoc(init[i])) == Success(before[k]);
          assert rows[i] == init[i];
        } else {
          assert Validate(RowDoc(rows[|rows| - 1])) == Success(after[k]);
        }
      }
    }
  }

  /** Seeding never creates a second car with the same brand and model. */
  lemma {:induction false} SeedKeepsKeysUnique(cars: seq<Car>, rows: seq<CsvRow>, fails: set<nat>)
    requires UniqueKeys(cars)
    ensures UniqueKeys(Seed(cars, rows, fails))
    decreases |rows|
  {
    if rows != [] {
      var init := rows[..|rows| - 1];
      var row := rows[|rows| - 1];
      SeedKeepsKeysUnique(cars, init, fails);
      var before := Seed(cars, init, fails);
      if !Present(before, row) {
        match Validate(RowDoc(row))
        case Success(car) =>
          var after := before + [car];
          forall i, j | 0 <= i < j < |after|
            ensures !(after[i].brand == after[j].brand && after[i].model == after[j].model)
          {
            if j == |before| {
              assert after[j] == car && car.brand == row.brand.value && car.model == row.model.value;
              assert !(before[i].brand == row.brand.value && before[i].model == row.model.value);
            }
          }
        case Failure(_) =>
      }
    }
  }

  /** Appending cars never unsettles a row. */
  lemma SettledStaysSettled(cars: seq<Car>, extra: seq<Car>, row: CsvRow)
    requires Settled(cars, row)
    ensures Settled(cars + extra, row)
  {
    if Present(cars, row) {
      var j :| 0 <= j < |cars| && cars[j].brand == row.brand.value && cars[j].model == row.model.value;
      assert (cars + extra)[j] == cars[j];
    }
  }

  /** After a run in which no save was refused, every row is settled. */
  lemma {:induction false} SeedSettlesRows(cars: seq<Car>, rows: seq<CsvRow>)
    ensures forall i :: 0 <= i < |rows| ==> Settled(Seed(cars, rows, {}), rows[i])
    decreases |rows|
  {
    if rows != [] {
      var init := rows[..|rows| - 1];
      var row := rows[|rows| - 1];
      SeedSettlesRows(cars, init);
      var before := Seed(cars, init, {});
      var after := Seed(cars, rows, {});
      SeedOnlyAppends(before, [row], {});
      assert [row][..0] == [];
      assert Seed(before, [row], {}) == after;
      assert after == before + after[|before|..];
      forall i | 0 <= i < |rows|
        ensures Settled(after, rows[i])
      {
        if i < |init| {
          assert rows[i] == init[i];
          SettledStaysSettled(before, after[|before|..], rows[i]);
        } else if !Present(before, row) && Validate(RowDoc(row)).Success? {
          var car := Validate(RowDoc(row)).value;
          assert after[|before|] == car;
        }
      }
    }
  }

  /** Seeding rows that are all settled changes nothing, whatever the database does. */
  lemma {:induction false} SeedOfSettled(cars: seq<Car>, rows: seq<CsvRow>, fails: set<nat>)
    requires forall i :: 0 <= i < |rows| ==> Settled(cars, rows[i])
    ensures Seed(cars, rows, fails) == cars
    decreases |rows|
  {
    if rows != [] {
      var init := rows[..|rows| - 1];
      assert forall i :: 0 <= i < |init| ==> init[i] == rows[i];
      SeedOfSettled(cars, init, fails);
      assert Settled(cars, rows[|rows| - 1]);
    }
  }

  /** Re-running the seeding after a run in which every save went through inserts nothing. */
  lemma SeedIdempotent(cars: seq<Car>, rows: seq<CsvRow>, fails: set<nat>)
    ensures Seed(Seed(cars, rows, {}), rows, fails) == Seed(cars, rows, {})
  {
    SeedSettlesRows(cars, rows);
    SeedOfSettled(Seed(cars, rows, {}), rows, fails);
  }

  // ---------------------------------------------------------------------------
  // Creating the admin user

  /** `createAdminUser`: nothing happens when a user already has the admin e-mail;
      otherwise the admin is stored under a fresh id if the save succeeds. */
  function CreateAdminSpec(db: Db, adminEmail: string, passwordHash: string, save: DbOutcome): Db {
    if (exists u :: u in db.users && db.users[u].email == adminEmail) || save.DbFailed? then db
    else db.(users := db.users[db.nextId := User(AdminName, adminEmail, passwordHash, true, [])],
             nextId := db.nextId + 1)
  }

  /** After a successful call an admin with that e-mail exists; a new one is
      created only when no user had the e-mail, and no other user changes. */
  lemma AdminExistsAfterCreate(db: Db, adminEmail: string, passwordHash: string)
    requires Consistent(db)
    ensures var after := CreateAdminSpec(db, adminEmail, passwordHash, Done);
            && (exists u :: u in after.users && after.users[u].email == adminEmail)
            && (forall u :: u in db.users ==> u in after.users && after.users[u] == db.users[u])
            && ((forall u :: u in db.users ==> db.users[u].email != adminEmail) ==>
                  after.users[db.nextId] == User(AdminName, adminEmail, passwordHash, true, []))
            && Consistent(after)
  {
    var after := CreateAdminSpec(db, adminEmail, passwordHash, Done);
    if forall u :: u in db.users ==> db.users[u].email != adminEmail {
      assert after.users[db.nextId].email == adminEmail;
    }
  }

  /** Calling `createAdminUser` again after a successful call changes nothing. */
  lemma CreateAdminIdempotent(db: Db, adminEmail: string, hash1: string, hash2: string, save: DbOutcome)
    ensures var once := CreateAdminSpec(db, adminEmail, hash1, Done);
            CreateAdminSpec(once, adminEmail, hash2, save) == once
  {
    var once := CreateAdminSpec(db, adminEmail, hash1, Done);
    if forall u :: u in db.users ==> db.users[u].email != adminEmail {
      assert once.users[db.nextId].email == adminEmail;
    }
  }

  /** When a user already has the admin e-mail, `createAdminUser` changes nothing,
      whatever the save would have done. */
  lemma AdminCreateOnlyWhenAbsent(db: Db, adminEmail: string, passwordHash: string, save: DbOutcome)
    requires exists u :: u in db.users && db.users[u].email == adminEmail
    ensures CreateAdminSpec(db, adminEmail, passwordHash, save) == db
  {
  }

  /** A refused save leaves the database as it was, and the store stays consistent
      whatever the outcome. */
  lemma AdminSaveFailureChangesNothing(db: Db, adminEmail: string, passwordHash: string, save: DbOutcome)
    requires Consistent(db)
    ensures save.DbFailed? ==> CreateAdminSpec(db, adminEmail, passwordHash, save) == db
    ensures Consistent(CreateAdminSpec(db, adminEmail, passwordHash, save))
  {
    if save == Done {
      AdminExistsAfterCreate(db, adminEmail, passwordHash);
    }
  }

  // ---------------------------------------------------------------------------
  // The database and the connection as objects

  /** The database collections the server writes. */
  class Store {
    var messages: map<DocId, Message>
    var users: map<DocId, User>
    var cars: seq<Car>
    var nextId: DocId

    function State(): Db
      reads this
    {
      Db(messages, users, cars, nextId)
    }

    ghost predicate Valid()
      reads this
    {
      Consistent(State())
    }

    /** An empty database. */
    constructor ()
      ensures Valid() && State() == Db(map[], map[], [], 0)
    {
      messages, users, cars, nextId := map[], map[], [], 0;
    }

    /** `newMessage.save()`: store a message under a fresh id. */
    method SaveMessage(text: string, response: string) returns (m: Message)
      requires Valid()
      modifies this
      ensures Valid()
      ensures m == Message(old(nextId), text, response)
      ensures State() == old(State()).(messages := old(messages)[m.id := m], nextId := old(nextId) + 1)
    {
      m := Message(nextId, text, response);
      messages := messages[m.id := m];
      nextId := nextId + 1;
    }

    /** `User.findByIdAndUpdate(uid, { $push: { messages: id } })`; an unknown user is
        left alone. */
    method PushMessage(uid: DocId, id: DocId)
      requires Valid()
      modifies this
      ensures id in messages ==> Valid()
      ensures State() == if uid in old(users)
                         then old(State()).(users := old(users)[uid := old(users)[uid].(messages := old(users)[uid].messages + [id])])
                         else old(State())
    {
      if uid in users {
        var u := users[uid];
        users := users[uid := u.(messages := u.messages + [id])];
      }
    }

    /** `insertCarDataFromCSV` once the rows are read: for each row, look the car up
        by exact brand and model, and save it if absent. A failed save is logged and
        the loop goes on; a failed lookup (a row of `lookupFails`) is not caught,
        so the loop stops there and reports `aborted`. */
    method InsertCarDataFromCsv(rows: seq<CsvRow>, fails: set<nat>, lookupFails: set<nat>)
      returns (outcomes: seq<RowOutcome>, aborted: bool)
      requires Valid()
      modifies this
      ensures Valid()
      ensures var stop := FirstLookupFailure(rows, lookupFails);
              && State() == old(State()).(cars := Seed(old(cars), rows[..stop], fails))
              && outcomes == SeedLog(old(cars), rows[..stop], fails)
              && (aborted <==> stop < |rows|)
    {
      ghost var stop := FirstLookupFailure(rows, lookupFails);
      outcomes, aborted := [], false;
      var i := 0;
      while i < |rows| && !aborted
        invariant 0 <= i <= stop
        invariant aborted ==> i == stop < |rows|
        invariant !aborted ==> i == |rows| ==> i == stop
        invariant Valid()
        invariant State() == old(State()).(cars := Seed(old(cars), rows[..i], fails))
        invariant outcomes == SeedLog(old(cars), rows[..i], fails)
        decreases |rows| - i, if aborted then 0 else 1
      {
        if i in lookupFails {
          aborted := true;
        } else {
          var row := rows[i];
          ghost var step := SeedRow(cars, row, i in fails);
          assert rows[..i + 1][..i] == rows[..i] && rows[..i + 1][i] == row;
          assert Seed(old(cars), rows[..i + 1], fails) == step.0;
          assert SeedLog(old(cars), rows[..i + 1], fails) == outcomes + [step.1];
          var outcome: RowOutcome;
          if Present(cars, row) {
            outcome := AlreadyExists;
          } else {
            match Validate(RowDoc(row))
            case Failure(paths) =>
              outcome := Rejected(paths);
            case Success(car) =>
              if i in fails {
                outcome := SaveFailed;
              } else {
                cars := cars + [car];
                outcome := Inserted;
              }
          }
          assert cars == step.0 && outcome == step.1;
          outcomes := outcomes + [outcome];
          i := i + 1;
        }
      }
    }

    /** `createAdminUser`: look the admin e-mail up and create the admin if absent. */
    method CreateAdminUser(adminEmail: string, passwordHash: string, save: DbOutcome)
      requires Valid()
      modifies this
      ensures Valid()
      ensures State() == CreateAdminSpec(old(State()), adminEmail, passwordHash, save)
    {
      var exists_ := exists u :: u in users && users[u].email == adminEmail;
      if !exists_ && save == Done {
        users := users[nextId := User(AdminName, adminEmail, passwordHash, true, [])];
        nextId := nextId + 1;
      }
      AdminSaveFailureChangesNothing(old(State()), adminEmail, passwordHash, save);
    }
  }

  /** One client socket and what the server has emitted on it. */
  class Connection {
    var sent: seq<Emission>

    /** The connection handler: exactly one greeting, on the `message` event. */
    constructor ()
      ensures sent == [Emission(MessageEvent, Greeting(WelcomeText))]
    {
      sent := [Emission(MessageEvent, Greeting(WelcomeText))];
    }

    /** The `message` handler: verify, resolve, save, record in the user's history,
        and emit either the saved message or the error shape on `response`. */
    method OnMessage(store: Store, msg: Inbound, verify: string -> Result<DocId, string>,
                     wit: string -> Option<ResponseHandler.WitData>,
                     unsplash: string -> Option<seq<string>>, catalogUp: bool,
                     save: DbOutcome, update: DbOutcome)
      requires store.Valid()
      modifies this, store
      ensures store.Valid()
      ensures var step := OnMessageSpec(old(store.State()), msg, verify, wit, unsplash, catalogUp, save, update);
              store.State() == step.db && sent == old(sent) + [Emission(ResponseEvent, step.payload)]
    {
      var decoded := verify(msg.token);
      if decoded.Failure? {
        sent := sent + [Emission(ResponseEvent, ErrorShape(HandlerErrorText, decoded.error))];
        return;
      }
      var userId := decoded.value;
      var response := ResponseHandler.GetResponse(msg.text, wit, unsplash, if catalogUp then Some(store.cars) else None);
      if save.DbFailed? {
        sent := sent + [Emission(ResponseEvent, ErrorShape(HandlerErrorText, save.reason))];
        return;
      }
      var newMessage := store.SaveMessage(msg.text, response);
      if update.DbFailed? {
        sent := sent + [Emission(ResponseEvent, ErrorShape(HandlerErrorText, update.reason))];
        return;
      }
      store.PushMessage(userId, newMessage.id);
      sent := sent + [Emission(ResponseEvent, Saved(newMessage))];
    }
  }
}
