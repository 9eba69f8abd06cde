/** The score store (server/db.py): the in-memory two-team counter, the
    result shaping of the DynamoDB backend, and the process-wide store
    selection. */
module Store {
  import opened Wrappers
  import opened Config

  const Team1: string := "team1"
  const Team2: string := "team2"

  /** The team names `increment` accepts. */
  predicate IsTeam(team: string) {
    team == Team1 || team == Team2
  }

  /** `ValueError("Invalid team: ...")`. */
  datatype StoreError = InvalidTeam(team: string)

  /** The `{"team1": ..., "team2": ...}` dictionaries the store hands out. */
  type Scores = map<string, int>

  /** Exactly the two team counters, neither negative. */
  predicate WellFormed(s: Scores) {
    s.Keys == {Team1, Team2} && s[Team1] >= 0 && s[Team2] >= 0
  }

  /** `{"team1": 0, "team2": 0}`. */
  function Zero(): (r: Scores)
    ensures WellFormed(r) && r[Team1] == 0 && r[Team2] == 0
  {
    map[Team1 := 0, Team2 := 0]
  }

  /** `d.get(key, default)`. */
  function GetOr(d: map<string, int>, key: string, default: int): int {
    if key in d then d[key] else default
  }

  /** The abstract effect of `increment`: one more vote for a valid team, an
      error and no change for anything else. */
  function IncrementSpec(s: Scores, team: string): (r: Result<Scores, StoreError>)
    requires WellFormed(s)
    ensures r.Err? <==> !IsTeam(team)
    ensures r.Err? ==> r.error == InvalidTeam(team)
    ensures r.Ok? ==> WellFormed(r.value) && r.value[team] == s[team] + 1
    ensures r.Ok? ==> forall t :: IsTeam(t) && t != team ==> r.value[t] == s[t]
  {
    if !IsTeam(team) then Err(InvalidTeam(team)) else Ok(s[team := s[team] + 1])
  }

  /** In-memory store: data is lost on restart. */
  class LocalStore {
    var scores: Scores

    ghost predicate Valid()
      reads this
    {
      WellFormed(scores)
    }

    constructor ()
      ensures Valid() && scores == Zero()
    {
      scores := Zero();
    }

    /** A copy of the current counts; the store is left as it is. */
    method GetScores() returns (r: Scores)
      requires Valid()
      ensures WellFormed(r) && r == scores
    {
      r := scores;
    }

    method Increment(team: string) returns (r: Result<Scores, StoreError>)
      requires Valid()
      modifies this
      ensures Valid()
      ensures r == IncrementSpec(old(scores), team)
      ensures !IsTeam(team) ==> scores == old(scores)
      ensures IsTeam(team) ==> scores == old(scores)[team := old(scores)[team] + 1] && r == Ok(scores)
    {
      if !IsTeam(team) {
        return Err(InvalidTeam(team));
      }
      scores := scores[team := scores[team] + 1];
      r := Ok(scores);
    }

    method Reset() returns (r: Scores)
      requires Valid()
      modifies this
      ensures Valid()
      ensures scores == Zero() && r == Zero()
    {
      scores := Zero();
      r := scores;
    }
  }

  // ── DynamoDB result shaping ──────────────────────────────────────────────

  /** The counters read back from the table row: a team attribute that is
      missing counts as 0. */
  function ShapeRow(item: map<string, int>): (r: Scores)
    ensures r.Keys == {Team1, Team2}
    ensures forall t :: IsTeam(t) && t !in item ==> r[t] == 0
    ensures forall t :: IsTeam(t) && t in item ==> r[t] == item[t]
  {
    map[Team1 := GetOr(item, Team1, 0), Team2 := GetOr(item, Team2, 0)]
  }

  /** The `get_item` response, whose `Item` may be missing altogether. */
  function ShapeGetResponse(item: Option<map<string, int>>): (r: Scores)
    ensures item.None? ==> r == Zero()
    ensures item.Some? ==> r == ShapeRow(item.value)
  {
    ShapeRow(if item.Some? then item.value else map[])
  }

  /** Reading back a row the store itself wrote gives that row unchanged. */
  lemma ShapeRowOfStoredRow(s: Scores)
    requires WellFormed(s)
    ensures ShapeRow(s) == s
  {
    var r := ShapeRow(s);
    assert r.Keys == s.Keys;
    forall t | t in s ensures r[t] == s[t] {
      assert IsTeam(t);
    }
  }

  // ── Store selection ──────────────────────────────────────────────────────

  /** The store the process uses: the in-memory one, or the DynamoDB one,
      whose operations are not part of this model. */
  datatype Backend = LocalBackend(local: LocalStore) | DynamoBackend

  /** Holder of the module-global singleton `_store`. */
  class StoreRegistry {
    var store: Option<Backend>

    constructor ()
      ensures store == None
    {
      store := None;
    }

    /** `get_store()`: the first call picks the backend from the settings'
        `DB_MODE`; a DynamoDB construction that fails (`dynamoConnects` false)
        falls back to a fresh local store; every later call returns the same
        store. */
    method GetStore(settings: Settings, dynamoConnects: bool) returns (b: Backend)
      modifies this
      ensures store == Some(b)
      ensures old(store).Some? ==> b == old(store).value
      ensures old(store).None? && settings.Mode() == DynamoDb && dynamoConnects ==> b == DynamoBackend
      ensures old(store).None? && (settings.Mode() == Local || !dynamoConnects) ==>
                b.LocalBackend? && fresh(b.local) && b.local.Valid() && b.local.scores == Zero()
    {
      if store.Some? {
        return store.value;
      }
      if settings.Mode().Name() == "dynamodb" && dynamoConnects {
        b := DynamoBackend;
      } else {
        var local := new LocalStore();
        b := LocalBackend(local);
      }
      store := Some(b);
    }
  }
}
