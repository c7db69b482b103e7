/**
 * routes/match.py: creating a match (the public-code loop and the optional
 * privacy flag) and the match code generator. The other match handlers are
 * empty in the source.
 */
module MatchRoutes {
  import opened Wrappers
  import opened Text
  import opened Entities
  import opened Query
  import opened CodeLoop

  /** `generate_uuid(length)`: exactly `length` alphabet characters, no prefix. */
  function GenerateUuid(length: int, draw: Draws): (r: string)
    ensures |r| == if length < 0 then 0 else length
    ensures forall i :: 0 <= i < |r| ==> r[i] in Alphabet
  {
    Choices(length, draw)
  }

  /** The code generated on attempt k. */
  function Candidate(rand: Oracle, k: nat): (c: string)
    requires k >= 1
    ensures |c| == LengthAt(k)
  {
    GenerateUuid(LengthAt(k), rand(k))
  }

  /** The public codes the match table already holds. */
  function Codes(rows: seq<Match>): set<string> {
    set m | m in rows :: m.uuid
  }

  /** A length no code in the table exceeds. */
  function MaxCodeLength(rows: seq<Match>): (n: nat)
    ensures forall m :: m in rows ==> |m.uuid| <= n
  {
    if rows == [] then 0
    else
      var rest := MaxCodeLength(rows[1..]);
      assert forall m :: m in rows ==> m == rows[0] || m in rows[1..];
      if |rows[0].uuid| > rest then |rows[0].uuid| else rest
  }

  /** The existence check of line 42: `query(Match).filter(Match.uuid == uuid).first()`. */
  function CodeTaken(rows: seq<Match>, uuid: string): (found: bool)
    ensures found <==> uuid in Codes(rows)
  {
    First(rows, (m: Match) => m.uuid == uuid).Some?
  }

  /** A code already in the table is no longer than MaxCodeLength. */
  lemma TakenCodeIsShort(rows: seq<Match>, code: string)
    requires code in Codes(rows)
    ensures |code| <= MaxCodeLength(rows)
  {
    var m :| m in rows && m.uuid == code;
  }

  /**
   * The code loop of create_match: attempt k draws a candidate of length
   * LengthAt(k), and the loop stops at the first candidate no match holds.
   */
  method MintCode(rows: seq<Match>, rand: Oracle) returns (uuid: string, attempts: nat)
    ensures attempts >= 1 && uuid == Candidate(rand, attempts)
    ensures uuid !in Codes(rows)
    ensures forall k :: 1 <= k < attempts ==> Candidate(rand, k) in Codes(rows)
  {
    var uuidLen := InitialLength;
    var tries := 0;
    var found := true;
    uuid := "";
    attempts := 0;
    ghost var bound := MaxCodeLength(rows);
    while found
      invariant 0 <= tries <= MaxTries
      invariant attempts == 0 ==> found && tries == 0 && uuidLen == InitialLength
      invariant attempts >= 1 ==> tries == TriesAt(attempts) && uuidLen == LengthAt(attempts)
      invariant attempts >= 1 ==> uuid == Candidate(rand, attempts) && (found <==> uuid in Codes(rows))
      invariant attempts >= 1 && found ==> uuidLen <= bound
      invariant forall k :: 1 <= k < attempts ==> Candidate(rand, k) in Codes(rows)
      decreases found, if uuidLen <= bound then bound + 1 - uuidLen else 0, MaxTries - tries
    {
      if attempts >= 1 {
        Step(attempts);
      }
      if tries >= MaxTries {
        tries := 0;
        uuidLen := uuidLen + 1;
      }
      tries := tries + 1;
      attempts := attempts + 1;
      assert uuidLen == LengthAt(attempts);
      uuid := GenerateUuid(uuidLen, rand(attempts));
      found := CodeTaken(rows, uuid);
      if found {
        TakenCodeIsShort(rows, uuid);
      }
    }
  }

  /**
   * The loop is bounded although the source sets no cap: every colliding
   * candidate is no longer than the longest existing code, so the number
   * of attempts is at most 1 + 10 * (that length - 5).
   */
  lemma {:induction false} AttemptsBounded(rows: seq<Match>, rand: Oracle, attempts: nat)
    requires attempts >= 1
    requires forall k :: 1 <= k < attempts ==> Candidate(rand, k) in Codes(rows)
    ensures attempts <= 1 + MaxTries * (if MaxCodeLength(rows) >= InitialLength then MaxCodeLength(rows) - InitialLength + 1 else 0)
  {
    if attempts > 1 {
      TakenCodeIsShort(rows, Candidate(rand, attempts - 1));
      AttemptsForLength(attempts - 1, MaxCodeLength(rows));
    }
  }

  /** The JSON body of `POST /matches`; None stands for an absent key. */
  datatype MatchRequest = MatchRequest(isPrivate: Option<bool>, tournamentId: Option<int>)

  /**
   * create_match: mints a fresh code, sets `is_private` only when the key is
   * present, and inserts the match. The tournament looked up for
   * `tournament_id` is discarded and affects nothing.
   */
  method CreateMatch(db: Store, req: MatchRequest, rand: Oracle) returns (m: Match)
    requires db.Valid()
    modifies db
    ensures db.Valid()
    ensures db.matches == old(db.matches) + [m] && m.id == old(db.nextMatchId)
    ensures m.uuid !in Codes(old(db.matches))
    ensures exists n ::
              n >= 1 && m.uuid == Candidate(rand, n)
              && (forall k :: 1 <= k < n ==> Candidate(rand, k) in Codes(old(db.matches)))
    ensures m.isPrivate == req.isPrivate.GetOr(DefaultIsPrivate)
    ensures db.games == old(db.games) && db.tournaments == old(db.tournaments)
    ensures db.nextMatchId == old(db.nextMatchId) + 1
    ensures db.nextGameId == old(db.nextGameId) && db.nextTournamentId == old(db.nextTournamentId)
  {
    var uuid, attempts := MintCode(db.matches, rand);
    var isPrivate := DefaultIsPrivate;
    if req.isPrivate.Some? {
      isPrivate := req.isPrivate.value;
    }
    if req.tournamentId.Some? {
      var tournament := TournamentWithId(db.tournaments, req.tournamentId.value);
    }
    m := db.AddMatch(Match(0, uuid, isPrivate));
  }
}
