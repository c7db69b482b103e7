/**
 * routes/tournament.py: creating a tournament (game resolution, the
 * public-code loop, column assignment), the creator-only delete, the
 * unrestricted delete, and the tournament code generator.
 */
module TournamentRoutes {
  import opened Wrappers
  import opened Text
  import opened Query
  import opened Entities
  import opened CodeLoop
  import opened Errors

  /** `generate_uuid(length)`: 't' followed by `length` alphabet characters. */
  function GenerateUuid(length: int, draw: Draws): (r: string)
    ensures |r| == 1 + (if length < 0 then 0 else length)
    ensures r[0] == 't'
    ensures forall i :: 1 <= i < |r| ==> r[i] in Alphabet
  {
    "t" + Choices(length, draw)
  }

  /** The code generated on attempt k. */
  function Candidate(rand: Oracle, k: nat): (c: string)
    requires k >= 1
    ensures |c| == 1 + LengthAt(k) && c[0] == 't'
  {
    GenerateUuid(LengthAt(k), rand(k))
  }

  /** The public codes the tournament table already holds. */
  function Codes(rows: seq<Tournament>): set<string> {
    set t | t in rows :: t.uuid
  }

  /** A length no code in the table exceeds. */
  function MaxCodeLength(rows: seq<Tournament>): (m: nat)
    ensures forall t :: t in rows ==> |t.uuid| <= m
  {
    if rows == [] then 0
    else
      var rest := MaxCodeLength(rows[1..]);
      assert forall t :: t in rows ==> t == rows[0] || t in rows[1..];
      if |rows[0].uuid| > rest then |rows[0].uuid| else rest
  }

  /** The existence check as intended: `query(Tournament).filter(Tournament.uuid == uuid).first()`. */
  function CodeTaken(rows: seq<Tournament>, uuid: string): (found: bool)
    ensures found <==> uuid in Codes(rows)
  {
    First(rows, (t: Tournament) => t.uuid == uuid).Some?
  }

  /**
   * The existence check as written on line 63: `tournament.uuid == uuid`
   * compares the unsaved instance's attribute (`instanceUuid`, still None)
   * with the candidate in Python, so the filter is a constant and matches
   * either every row or none.
   */
  function CodeTakenAsWritten(instanceUuid: Option<string>, rows: seq<Tournament>, uuid: string): (found: bool)
    ensures instanceUuid.None? ==> !found
  {
    var condition := instanceUuid == Some(uuid);
    First(rows, (t: Tournament) => condition).Some?
  }

  /**
   * The code loop of create_tournament with the intended column check:
   * attempt k draws a candidate of length 1 + LengthAt(k), and the loop
   * stops at the first candidate that is not already a tournament's code.
   */
  method MintCode(rows: seq<Tournament>, rand: Oracle) returns (uuid: string, attempts: nat)
    ensures attempts >= 1 && uuid == Candidate(rand, attempts)
    ensures uuid !in Codes(rows)
    ensures forall k :: 1 <= k < attempts ==> Candidate(rand, k) in Codes(rows)
  {
    var uuidLen := InitialLength;
    var tries := 0;
    var found := true;
    uuid := "";
    attempts := 0;
    ghost var bound := MaxCodeLength(rows);
    while found
      invariant 0 <= tries <= MaxTries
      invariant attempts == 0 ==> found && tries == 0 && uuidLen == InitialLength
      invariant attempts >= 1 ==> tries == TriesAt(attempts) && uuidLen == LengthAt(attempts)
      invariant attempts >= 1 ==> uuid == Candidate(rand, attempts) && (found <==> uuid in Codes(rows))
      invariant attempts >= 1 && found ==> uuidLen < bound
      invariant forall k :: 1 <= k < attempts ==> Candidate(rand, k) in Codes(rows)
      decreases found, if uuidLen < bound then bound - uuidLen else 0, MaxTries - tries
    {
      if attempts >= 1 {
        Step(attempts);
      }
      if tries >= MaxTries {
        tries := 0;
        uuidLen := uuidLen + 1;
      }
      tries := tries + 1;
      attempts := attempts + 1;
      assert uuidLen == LengthAt(attempts);
      uuid := GenerateUuid(uuidLen, rand(attempts));
      found := CodeTaken(rows, uuid);
      if found {
        TakenCodeIsShort(rows, uuid);
      }
    }
  }

  /** A code already in the table is no longer than MaxCodeLength. */
  lemma TakenCodeIsShort(rows: seq<Tournament>, code: string)
    requires code in Codes(rows)
    ensures |code| <= MaxCodeLength(rows)
  {
    var t :| t in rows && t.uuid == code;
  }

  /**
   * The code loop exactly as written: with the check of line 63 it stops
   * after one attempt whatever the table holds.
   */
  method MintCodeAsWritten(rows: seq<Tournament>, rand: Oracle) returns (uuid: string, attempts: nat)
    ensures attempts == 1 && uuid == Candidate(rand, 1)
  {
    var uuidLen := InitialLength;
    var tries := 0;
    var found := true;
    uuid := "";
    attempts := 0;
    while found
      invariant found ==> attempts == 0 && tries == 0 && uuidLen == InitialLength
      invariant !found ==> attempts == 1 && uuid == Candidate(rand, 1)
      decreases found
    {
      if tries >= MaxTries {
        tries := 0;
        uuidLen := uuidLen + 1;
      }
      tries := tries + 1;
      attempts := attempts + 1;
      uuid := GenerateUuid(uuidLen, rand(attempts));
      found := CodeTakenAsWritten(None, rows, uuid);
    }
  }

  /**
   * The discrepancy: when the first candidate is already a tournament's code,
   * the check as written does not see it, so the new tournament repeats an
   * existing code, while the intended check sees it and draws again.
   */
  lemma AsWrittenRepeatsCode(rand: Oracle, rows: seq<Tournament>)
    requires Candidate(rand, 1) in Codes(rows)
    ensures !CodeTakenAsWritten(None, rows, Candidate(rand, 1))
    ensures CodeTaken(rows, Candidate(rand, 1))
  {
  }

  /**
   * The loop is bounded although the source sets no cap: every colliding
   * candidate is no longer than the longest existing code, so the number
   * of attempts is at most 1 + 10 * (that length - 6).
   */
  lemma {:induction false} AttemptsBounded(rows: seq<Tournament>, rand: Oracle, attempts: nat)
    requires attempts >= 1
    requires forall k :: 1 <= k < attempts ==> Candidate(rand, k) in Codes(rows)
    ensures attempts <= 1 + MaxTries * (if MaxCodeLength(rows) > InitialLength then MaxCodeLength(rows) - InitialLength else 0)
  {
    if attempts > 1 {
      var last := Candidate(rand, attempts - 1);
      assert last in Codes(rows);
      var t :| t in rows && t.uuid == last;
      AttemptsForLength(attempts - 1, MaxCodeLength(rows) - 1);
    }
  }

  /** A field of the request that may be absent, JSON null, or a value. */
  datatype Field<T> = Absent | Null | Given(value: T)

  /** The JSON body of `POST /tournaments`; None stands for an absent key. */
  datatype TournamentRequest = TournamentRequest(
    gameId: Field<int>,
    gameName: Option<string>,
    name: Option<string>,
    maxParticipants: Option<int>,
    startDate: Option<string>,
    startDateTz: Option<string>)

  /** The game a tournament is attached to: an existing row, or a new game of that name. */
  datatype GameChoice = Existing(index: nat) | NewGame(name: string)

  /**
   * Lines 42-48: the game with id `gameId` wins; otherwise the first game
   * whose name equals the trimmed `gameName` up to letter case; otherwise a
   * new game named with `gameName` as given. A missing `gameId` key, or a
   * missing `gameName` key when it is needed, is a KeyError.
   */
  function ResolveGame(games: seq<Game>, gameId: Field<int>, gameName: Option<string>): (r: Result<GameChoice, string>)
    ensures gameId.Absent? <==> r == Failure("gameId")
    ensures r == Failure("gameName") <==>
      !gameId.Absent? && gameName.None? && forall g :: g in games ==> !gameId.Given? || g.id != gameId.value
    ensures !gameId.Absent? && (gameName.Some? || exists g :: g in games && gameId.Given? && g.id == gameId.value) ==>
      r.Success?
    ensures r.Success? && r.value.Existing? ==> r.value.index < |games|
    ensures gameId.Given? && (exists g :: g in games && g.id == gameId.value) ==>
      r.Success? && r.value.Existing? && games[r.value.index].id == gameId.value
    ensures r.Success? && r.value.Existing? && !(gameId.Given? && games[r.value.index].id == gameId.value) ==>
      gameName.Some? && ILike(games[r.value.index].name, Trim(gameName.value))
      && (forall g :: g in games ==> !gameId.Given? || g.id != gameId.value)
      && (forall j :: 0 <= j < r.value.index ==> !ILike(games[j].name, Trim(gameName.value)))
    ensures r.Success? && r.value.NewGame? ==>
      gameName == Some(r.value.name)
      && (forall g :: g in games ==> !gameId.Given? || g.id != gameId.value)
      && (forall g :: g in games ==> !ILike(g.name, Trim(r.value.name)))
  {
    if gameId.Absent? then Failure("gameId")
    else
      var byId := if gameId.Given? then GameWithId(games, gameId.value) else None;
      if byId.Some? then Success(Existing(byId.value))
      else if gameName.None? then Failure("gameName")
      else
        var byName := GameNamed(games, Trim(gameName.value));
        if byName.Some? then Success(Existing(byName.value))
        else Success(NewGame(gameName.value))
  }

  /** An existing game with the requested id is chosen whatever `gameName` says. */
  lemma IdWins(games: seq<Game>, next: int, id: int, gameName: Option<string>, i: nat)
    requires KeysIncreasing(games, GameKey, next)
    requires i < |games| && games[i].id == id
    ensures ResolveGame(games, Given(id), gameName) == Success(Existing(i))
  {
    assert games[i] in games;
    var r := GameWithId(games, id);
    KeyIsUnique(games, GameKey, next, i, r.value);
  }

  /** The error a create request fails with: the first key the handler reads that is missing. */
  function MissingKey(games: seq<Game>, req: TournamentRequest): (key: Option<string>)
    ensures key.None? <==>
      ResolveGame(games, req.gameId, req.gameName).Success? && req.name.Some? && req.maxParticipants.Some?
    ensures req.gameId.Absent? ==> key == Some("gameId")
    ensures !req.gameId.Absent? && req.gameName.None? && (forall g :: g in games ==> !req.gameId.Given? || g.id != req.gameId.value) ==>
      key == Some("gameName")
    ensures ResolveGame(games, req.gameId, req.gameName).Success? && req.name.None? ==> key == Some("name")
    ensures ResolveGame(games, req.gameId, req.gameName).Success? && req.name.Some? && req.maxParticipants.None? ==>
      key == Some("maxParticipants")
  {
    var game := ResolveGame(games, req.gameId, req.gameName);
    if game.Failure? then Some(game.error)
    else if req.name.None? then Some("name")
    else if req.maxParticipants.None? then Some("maxParticipants")
    else None
  }

  /**
   * create_tournament: resolves the game (inserting a new one if needed),
   * mints a code, assigns the columns and inserts the tournament. The code
   * loop is the one with the intended column check (MintCode), so the code is
   * fresh; with the check as written on line 63 it is the first candidate
   * whatever the table holds (MintCodeAsWritten). A
   * missing key aborts the request and the session is rolled back, so
   * nothing changes.
   */
  method CreateTournament(db: Store, req: TournamentRequest, loggedUserId: int, rand: Oracle)
    returns (r: Result<Tournament, string>)
    requires db.Valid()
    modifies db
    ensures db.Valid()
    ensures MissingKey(old(db.games), req).Some? ==>
      r == Failure(MissingKey(old(db.games), req).value) && unchanged(db)
    ensures MissingKey(old(db.games), req).None? ==> r.Success?
    ensures r.Success? ==>
      var t := r.value;
      db.tournaments == old(db.tournaments) + [t] && t.id == old(db.nextTournamentId)
      && t.uuid !in Codes(old(db.tournaments))
      && (exists n :: n >= 1 && t.uuid == Candidate(rand, n)
            && forall k :: 1 <= k < n ==> Candidate(rand, k) in Codes(old(db.tournaments)))
      && t.name == req.name.value && t.maxParticipants == req.maxParticipants.value
      && t.startDate == req.startDate && t.startDateTz == req.startDateTz
      && t.creatorId == loggedUserId
      && db.matches == old(db.matches)
      && db.nextTournamentId == old(db.nextTournamentId) + 1 && db.nextMatchId == old(db.nextMatchId)
    ensures r.Success? ==>
      match ResolveGame(old(db.games), req.gameId, req.gameName).value
      case Existing(i) =>
        r.value.gameId == old(db.games)[i].id && db.games == old(db.games) && db.nextGameId == old(db.nextGameId)
      case NewGame(name) =>
        r.value.gameId == old(db.nextGameId) && db.games == old(db.games) + [Game(old(db.nextGameId), name)]
        && db.nextGameId == old(db.nextGameId) + 1
  {
    var missing := MissingKey(db.games, req);
    if missing.Some? {
      return Failure(missing.value);
    }
    var choice := ResolveGame(db.games, req.gameId, req.gameName).value;
    var game: Game;
    match choice {
      case Existing(i) =>
        game := db.games[i];
      case NewGame(name) =>
        game := db.AddGame(name);
    }
    var uuid, attempts := MintCode(db.tournaments, rand);
    var t := Tournament(
      0, uuid, req.name.value, req.maxParticipants.value, req.startDate, req.startDateTz,
      game.id, loggedUserId);
    t := db.AddTournament(t);
    r := Success(t);
  }

  /** What a delete handler answers. */
  datatype DeleteReply =
    | TournamentDeleted           // '', 204
    | Failed(error: ErrorReply)   // an errors.py envelope
    | NoResponse                  // the handler fell off its end and returned None

  const TournamentNotFound: string := "Tournament not found"
  const NotYourTournament: string := "You can't delete a not your tournament"

  /**
   * delete_tournament: an unknown id is a 404; the creator's delete removes
   * that row and answers 204; anyone else gets a 403 and nothing changes.
   */
  method DeleteTournament(db: Store, id: int, loggedUserId: int) returns (reply: DeleteReply)
    requires db.Valid()
    modifies db`tournaments
    ensures db.Valid()
    ensures TournamentWithId(old(db.tournaments), id).None? ==>
      reply == Failed(NotFoundError(Text(TournamentNotFound))) && db.tournaments == old(db.tournaments)
    ensures TournamentWithId(old(db.tournaments), id).Some? ==>
      var i := TournamentWithId(old(db.tournaments), id).value;
      if old(db.tournaments)[i].creatorId == loggedUserId
      then reply == TournamentDeleted && db.tournaments == RemoveAt(old(db.tournaments), i)
           && forall t :: t in db.tournaments ==> t.id != id
      else reply == Failed(ForbiddenError(Text(NotYourTournament))) && db.tournaments == old(db.tournaments)
  {
    var found := TournamentWithId(db.tournaments, id);
    if found.None? {
      return Failed(NotFoundError(Text(TournamentNotFound)));
    }
    if db.tournaments[found.value].creatorId == loggedUserId {
      RemoveDropsKey(db.tournaments, TournamentKey, db.nextTournamentId, found.value);
      db.DeleteTournamentAt(found.value);
      return TournamentDeleted;
    }
    return Failed(ForbiddenError(Text(NotYourTournament)));
  }

  /**
   * delete_tournament exactly as written: on the non-creator branch the
   * forbidden envelope is built but not returned, so the handler returns
   * None (which Flask rejects as a response) and nothing changes.
   */
  method DeleteTournamentAsWritten(db: Store, id: int, loggedUserId: int) returns (reply: DeleteReply)
    requires db.Valid()
    modifies db`tournaments
    ensures db.Valid()
    ensures TournamentWithId(old(db.tournaments), id).None? ==>
      reply == Failed(NotFoundError(Text(TournamentNotFound))) && db.tournaments == old(db.tournaments)
    ensures TournamentWithId(old(db.tournaments), id).Some? ==>
      var i := TournamentWithId(old(db.tournaments), id).value;
      if old(db.tournaments)[i].creatorId == loggedUserId
      then reply == TournamentDeleted && db.tournaments == RemoveAt(old(db.tournaments), i)
      else reply == NoResponse && db.tournaments == old(db.tournaments)
  {
    var found := TournamentWithId(db.tournaments, id);
    if found.None? {
      return Failed(NotFoundError(Text(TournamentNotFound)));
    }
    if db.tournaments[found.value].creatorId == loggedUserId {
      db.DeleteTournamentAt(found.value);
      return TournamentDeleted;
    }
    var discarded := ForbiddenError(Text(NotYourTournament));
    return NoResponse;
  }

  /** delete_any_tournament: an unknown id is a 404; otherwise that row is removed and the answer is 204. */
  method DeleteAnyTournament(db: Store, id: int) returns (reply: DeleteReply)
    requires db.Valid()
    modifies db`tournaments
    ensures db.Valid()
    ensures TournamentWithId(old(db.tournaments), id).None? ==>
      reply == Failed(NotFoundError(Text(TournamentNotFound))) && db.tournaments == old(db.tournaments)
    ensures TournamentWithId(old(db.tournaments), id).Some? ==>
      reply == TournamentDeleted
      && db.tournaments == RemoveAt(old(db.tournaments), TournamentWithId(old(db.tournaments), id).value)
      && forall t :: t in db.tournaments ==> t.id != id
  {
    var found := TournamentWithId(db.tournaments, id);
    if found.None? {
      return Failed(NotFoundError(Text(TournamentNotFound)));
    }
    RemoveDropsKey(db.tournaments, TournamentKey, db.nextTournamentId, found.value);
    db.DeleteTournamentAt(found.value);
    return TournamentDeleted;
  }
}
