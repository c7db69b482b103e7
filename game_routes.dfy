/**
 * routes/game.py: find-or-create by name, lookup, rename and delete by id,
 * and the game code generator.
 */
module GameRoutes {
  import opened Wrappers
  import opened Text
  import opened Query
  import opened Entities

  /**
   * `generate_uuid(length)`: 'm' followed by `length - 1` alphabet
   * characters, `length` characters in all; a length below 1 still yields "m".
   */
  function GenerateUuid(length: int, draw: nat -> nat): (r: string)
    ensures |r| == if length < 1 then 1 else length
    ensures r[0] == 'm'
    ensures forall i :: 1 <= i < |r| ==> r[i] in Alphabet
  {
    "m" + Choices(length - 1, draw)
  }

  /** What a game handler answers. */
  datatype GameReply =
    | GameJson(status: int, game: Game, location: Option<int>)  // jsonify(game.long()); location: the id in '/games/{id}'
    | GameNotFound                                              // {'error': 'Game not found'}, 404
    | GameDeleted                                               // '', 204
    | KeyErrorRaised(key: string)                               // a KeyError escapes the handler

  function Status(r: GameReply): int {
    match r
    case GameJson(status, _, _) => status
    case GameNotFound => 404
    case GameDeleted => 204
    case KeyErrorRaised(_) => 500
  }

  /**
   * create_game: when a game's name equals the trimmed `name` up to letter
   * case, nothing is inserted and the answer is a 303 pointing at that game;
   * otherwise one game named with `name` as given is inserted and the answer
   * is 201.
   */
  method CreateGame(db: Store, name: Option<string>) returns (reply: GameReply)
    requires db.Valid()
    modifies db
    ensures db.Valid()
    ensures name.None? ==> reply == KeyErrorRaised("name") && unchanged(db)
    ensures name.Some? && GameNamed(old(db.games), Trim(name.value)).Some? ==>
      var g := old(db.games)[GameNamed(old(db.games), Trim(name.value)).value];
      reply == GameJson(303, g, Some(g.id)) && Status(reply) == 303 && unchanged(db)
    ensures name.Some? && GameNamed(old(db.games), Trim(name.value)).None? ==>
      var g := Game(old(db.nextGameId), name.value);
      reply == GameJson(201, g, None) && Status(reply) == 201
      && db.games == old(db.games) + [g] && db.nextGameId == old(db.nextGameId) + 1
      && db.tournaments == old(db.tournaments) && db.matches == old(db.matches)
      && db.nextTournamentId == old(db.nextTournamentId) && db.nextMatchId == old(db.nextMatchId)
  {
    if name.None? {
      return KeyErrorRaised("name");
    }
    var found := GameNamed(db.games, Trim(name.value));
    if found.Some? {
      var g := db.games[found.value];
      return GameJson(303, g, Some(g.id));
    }
    var g := db.AddGame(name.value);
    return GameJson(201, g, None);
  }

  /**
   * Repeating create_game with a name that has no surrounding whitespace:
   * if the first call inserted the game, the second call finds exactly that
   * game, so it answers 303 and inserts nothing.
   */
  lemma {:induction false} CreateGameIdempotent(games: seq<Game>, next: int, name: string)
    requires !HasSurroundingSpace(name)
    requires GameNamed(games, Trim(name)).None?
    ensures GameNamed(games + [Game(next, name)], Trim(name)) == Some(|games|)
  {
    TrimFixesUnpadded(name);
    assert ILike(name, name) by {
      assert Lower(name) == Lower(name);
    }
    GameNamedAfterAppend(games, Game(next, name), name);
  }

  /**
   * The caveat: the lookup trims but the stored name is untrimmed, so for a
   * name with surrounding whitespace the second call does not find the game
   * the first call inserted and inserts another one.
   */
  lemma PaddedNameInsertedTwice(games: seq<Game>, next: int, name: string)
    requires HasSurroundingSpace(name)
    requires GameNamed(games, Trim(name)).None?
    ensures GameNamed(games + [Game(next, name)], Trim(name)).None?
  {
    TrimFixesUnpadded(name);
    var t := TrimStart(name);
    assert |Trim(name)| < |name|;
    var after := games + [Game(next, name)];
    forall g | g in after ensures !ILike(g.name, Trim(name)) {
      if g != Game(next, name) {
        assert g in games;
      }
    }
  }

  /** get_game: the game with that id (status 200), or a 404 when there is none. */
  function GetGame(db: Store, id: int): (reply: GameReply)
    reads db
    ensures reply == GameNotFound <==> forall g :: g in db.games ==> g.id != id
    ensures reply != GameNotFound ==>
      reply.GameJson? && reply.status == 200 && reply.game in db.games && reply.game.id == id && reply.location.None?
  {
    var found := GameWithId(db.games, id);
    if found.None? then GameNotFound else GameJson(200, db.games[found.value], None)
  }

  /**
   * patch_game: an unknown id is a 404 and nothing changes; otherwise only
   * that game's name changes, and only when the `name` key is present.
   */
  method PatchGame(db: Store, id: int, name: Option<string>) returns (reply: GameReply)
    requires db.Valid()
    modifies db`games
    ensures db.Valid()
    ensures GameWithId(old(db.games), id).None? ==> reply == GameNotFound && db.games == old(db.games)
    ensures GameWithId(old(db.games), id).Some? ==>
      var i := GameWithId(old(db.games), id).value;
      |db.games| == |old(db.games)|
      && (forall j :: 0 <= j < |db.games| && j != i ==> db.games[j] == old(db.games)[j])
      && db.games[i] == Game(id, name.GetOr(old(db.games)[i].name))
      && reply == GameJson(200, db.games[i], None)
  {
    var found := GameWithId(db.games, id);
    if found.None? {
      return GameNotFound;
    }
    if name.Some? {
      db.RenameGameAt(found.value, name.value);
    }
    return GameJson(200, db.games[found.value], None);
  }

  /** delete_game: an unknown id is a 404; otherwise exactly that game is removed and the answer is 204. */
  method DeleteGame(db: Store, id: int) returns (reply: GameReply)
    requires db.Valid()
    modifies db`games
    ensures db.Valid()
    ensures GameWithId(old(db.games), id).None? ==> reply == GameNotFound && db.games == old(db.games)
    ensures GameWithId(old(db.games), id).Some? ==>
      reply == GameDeleted
      && db.games == RemoveAt(old(db.games), GameWithId(old(db.games), id).value)
      && forall g :: g in db.games ==> g.id != id
  {
    var found := GameWithId(db.games, id);
    if found.None? {
      return GameNotFound;
    }
    RemoveDropsKey(db.games, GameKey, db.nextGameId, found.value);
    db.DeleteGameAt(found.value);
    return GameDeleted;
  }
}
