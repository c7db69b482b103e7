/**
 * The rows the route handlers read and write, and the database session they
 * share. Only the columns the handlers touch are kept; `Store` holds one
 * table per entity as its rows in primary-key order, with the next
 * auto-increment key of each table.
 */
module Entities {
  import opened Wrappers
  import opened Query
  import opened Text

  /** A catalogue game. */
  datatype Game = Game(id: int, name: string)

  /**
   * A tournament. `startDate` and `startDateTz` are None when the handler
   * leaves them to the column default.
   */
  datatype Tournament = Tournament(
    id: int,
    uuid: string,
    name: string,
    maxParticipants: int,
    startDate: Option<string>,
    startDateTz: Option<string>,
    gameId: int,
    creatorId: int)

  /** A match: its public code and its privacy flag. */
  datatype Match = Match(id: int, uuid: string, isPrivate: bool)

  /** The value `is_private` has when the request does not set it. */
  const DefaultIsPrivate := false

  function GameKey(g: Game): int { g.id }
  function TournamentKey(t: Tournament): int { t.id }
  function MatchKey(m: Match): int { m.id }

  /** `Game.query.filter(Game.id == id).first()`, as a row index. */
  function GameWithId(games: seq<Game>, id: int): (r: Option<nat>)
    ensures r.Some? ==> r.value < |games| && games[r.value].id == id
    ensures r.None? <==> forall g :: g in games ==> g.id != id
  {
    FirstIndex(games, (g: Game) => g.id == id)
  }

  /** `query(Tournament).filter(Tournament.id == id).first()`, as a row index. */
  function TournamentWithId(tournaments: seq<Tournament>, id: int): (r: Option<nat>)
    ensures r.Some? ==> r.value < |tournaments| && tournaments[r.value].id == id
    ensures r.None? <==> forall t :: t in tournaments ==> t.id != id
  {
    FirstIndex(tournaments, (t: Tournament) => t.id == id)
  }

  /** `Game.query.filter(Game.name.ilike(name)).first()`, as a row index. */
  function GameNamed(games: seq<Game>, name: string): (r: Option<nat>)
    ensures r.Some? ==> r.value < |games| && ILike(games[r.value].name, name)
    ensures r.Some? ==> forall j :: 0 <= j < r.value ==> !ILike(games[j].name, name)
    ensures r.None? <==> forall g :: g in games ==> !ILike(g.name, name)
  {
    FirstIndex(games, (g: Game) => ILike(g.name, name))
  }

  /** A row appended to a table with no match for `name` is the first match when it matches. */
  lemma GameNamedAfterAppend(games: seq<Game>, g: Game, name: string)
    requires GameNamed(games, name).None?
    requires ILike(g.name, name)
    ensures GameNamed(games + [g], name) == Some(|games|)
  {
    var after := games + [g];
    assert after[|games|] == g;
    forall j | 0 <= j < |games| ensures !ILike(after[j].name, name) {
      assert after[j] == games[j] && games[j] in games;
    }
  }

  /** The in-memory database: one table per entity and the next key each table issues. */
  class Store {
    var games: seq<Game>
    var tournaments: seq<Tournament>
    var matches: seq<Match>
    var nextGameId: int
    var nextTournamentId: int
    var nextMatchId: int

    ghost predicate Valid()
      reads this
    {
      KeysIncreasing(games, GameKey, nextGameId)
      && KeysIncreasing(tournaments, TournamentKey, nextTournamentId)
      && KeysIncreasing(matches, MatchKey, nextMatchId)
    }

    constructor ()
      ensures Valid()
      ensures games == [] && tournaments == [] && matches == []
    {
      games, tournaments, matches := [], [], [];
      nextGameId, nextTournamentId, nextMatchId := 1, 1, 1;
    }

    /** `session.add(Game(name=...))` and flush: the new row receives the next key. */
    method AddGame(name: string) returns (g: Game)
      requires Valid()
      modifies this
      ensures Valid()
      ensures g == Game(old(nextGameId), name)
      ensures games == old(games) + [g] && nextGameId == old(nextGameId) + 1
      ensures tournaments == old(tournaments) && matches == old(matches)
      ensures nextTournamentId == old(nextTournamentId) && nextMatchId == old(nextMatchId)
    {
      g := Game(nextGameId, name);
      AppendKeepsKeys(games, GameKey, nextGameId, g);
      games := games + [g];
      nextGameId := nextGameId + 1;
    }

    /** `game.name = name` on the `i`-th row. */
    method RenameGameAt(i: nat, name: string)
      requires Valid() && i < |games|
      modifies this`games
      ensures Valid()
      ensures games == old(games)[i := Game(old(games)[i].id, name)]
    {
      UpdateKeepsKeys(games, GameKey, nextGameId, i, Game(games[i].id, name));
      games := games[i := Game(games[i].id, name)];
    }

    /** `game.delete()` on the `i`-th row. */
    method DeleteGameAt(i: nat)
      requires Valid() && i < |games|
      modifies this`games
      ensures Valid()
      ensures games == RemoveAt(old(games), i)
    {
      RemoveKeepsKeys(games, GameKey, nextGameId, i);
      games := RemoveAt(games, i);
    }

    /** `session.add(tournament)` and flush, with every column but the key already set. */
    method AddTournament(t: Tournament) returns (added: Tournament)
      requires Valid()
      modifies this
      ensures Valid()
      ensures added == t.(id := old(nextTournamentId))
      ensures tournaments == old(tournaments) + [added] && nextTournamentId == old(nextTournamentId) + 1
      ensures games == old(games) && matches == old(matches)
      ensures nextGameId == old(nextGameId) && nextMatchId == old(nextMatchId)
    {
      added := t.(id := nextTournamentId);
      AppendKeepsKeys(tournaments, TournamentKey, nextTournamentId, added);
      tournaments := tournaments + [added];
      nextTournamentId := nextTournamentId + 1;
    }

    /** `tournament.delete()` on the `i`-th row. */
    method DeleteTournamentAt(i: nat)
      requires Valid() && i < |tournaments|
      modifies this`tournaments
      ensures Valid()
      ensures tournaments == RemoveAt(old(tournaments), i)
    {
      RemoveKeepsKeys(tournaments, TournamentKey, nextTournamentId, i);
      tournaments := RemoveAt(tournaments, i);
    }

    /** `match.insert()`, with every column but the key already set. */
    method AddMatch(m: Match) returns (added: Match)
      requires Valid()
      modifies this
      ensures Valid()
      ensures added == m.(id := old(nextMatchId))
      ensures matches == old(matches) + [added] && nextMatchId == old(nextMatchId) + 1
      ensures games == old(games) && tournaments == old(tournaments)
      ensures nextGameId == old(nextGameId) && nextTournamentId == old(nextTournamentId)
    {
      added := m.(id := nextMatchId);
      AppendKeepsKeys(matches, MatchKey, nextMatchId, added);
      matches := matches + [added];
      nextMatchId := nextMatchId + 1;
    }
  }
}
