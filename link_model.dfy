/**
 * The `links` table and the six statements the link model runs against it.
 *
 * The table is keyed by `code` (UNIQUE NOT NULL, VARCHAR(8)); every other column
 * hangs off that key, so the table is a map from code to row. Each statement is a
 * pure function from the table before to the table after and the statement's
 * result, and the class `LinkTable` runs the same statements in place. A database
 * fault (a lost connection, a server error) is a caller-supplied `failure`: the
 * statement then raises that error and changes nothing.
 */
module LinkModel {
  import opened Wrappers

  /** `code VARCHAR(8)`: the longest code the column stores. */
  const MaxCodeLength: nat := 8
  /** `clicks INTEGER`: PostgreSQL's INTEGER is a signed 32-bit integer. */
  const MaxInteger: int := 0x7fff_ffff

  /** An error raised by PostgreSQL: its SQLSTATE code and its message. */
  datatype DbError = DbError(code: string, message: string)

  /** SQLSTATE 23505: an INSERT would duplicate a UNIQUE column. */
  const UniqueViolationCode := "23505"
  const UniqueViolation := DbError(UniqueViolationCode, "duplicate key value violates unique constraint \"links_code_key\"")
  /** SQLSTATE 22001: a string longer than its VARCHAR column. */
  const StringTooLong := DbError("22001", "value too long for type character varying(8)")
  /** SQLSTATE 22003: an INTEGER result outside 32 bits. */
  const NumericOutOfRange := DbError("22003", "integer out of range")

  /** One row of `links` as the statements return it (the surrogate `id` is never read). */
  datatype Link = Link(code: string, originalUrl: string, clicks: int, createdAt: nat, lastClicked: Option<nat>)

  /** The table: each row under its own code, so no two rows share a code. */
  type Table = map<string, Link>

  /** What the schema guarantees of every stored row. */
  ghost predicate WellFormed(t: Table)
  {
    forall c | c in t :: t[c].code == c && |c| <= MaxCodeLength && 0 <= t[c].clicks <= MaxInteger
  }

  /** A statement's effect: the table afterwards and what the statement returned or raised. */
  datatype Exec<+T> = Exec(table: Table, result: Result<T, DbError>)

  /** Every character of `s` from position `n` on is a space. */
  predicate OnlySpacesFrom(s: string, n: nat)
  {
    forall i | n <= i < |s| :: s[i] == ' '
  }

  /**
   * The value a VARCHAR(8) column stores for `code`: the code itself when it fits,
   * the code cut to 8 characters when everything past the 8th is a space, and
   * nothing (the 22001 error) otherwise.
   */
  function StoredCode(code: string): (r: Option<string>)
    ensures r.Some? ==> |r.value| <= MaxCodeLength
    ensures r.Some? <==> |code| <= MaxCodeLength || OnlySpacesFrom(code, MaxCodeLength)
    ensures |code| <= MaxCodeLength ==> r == Some(code)
    ensures |code| > MaxCodeLength && r.Some? ==> r.value == code[..MaxCodeLength]
  {
    if |code| <= MaxCodeLength then Some(code)
    else if OnlySpacesFrom(code, MaxCodeLength) then Some(code[..MaxCodeLength])
    else None
  }

  /** The row an INSERT creates: the column defaults give `clicks = 0`, `created_at = now`, `last_clicked = NULL`. */
  function NewRow(code: string, originalUrl: string, now: nat): Link
  {
    Link(code, originalUrl, 0, now, None)
  }

  /** `INSERT INTO links (code, original_url) VALUES ($1, $2) RETURNING *` */
  function Insert(t: Table, code: string, originalUrl: string, now: nat, failure: Option<DbError>): (e: Exec<Link>)
  {
    if failure.Some? then Exec(t, Failure(failure.value))
    else match StoredCode(code)
      case None => Exec(t, Failure(StringTooLong))
      case Some(key) =>
        if key in t then Exec(t, Failure(UniqueViolation))
        else
          var row := NewRow(key, originalUrl, now);
          Exec(t[key := row], Success(row))
  }

  /** `SELECT code, original_url, clicks, created_at, last_clicked FROM links WHERE code = $1` */
  function Select(t: Table, code: string, failure: Option<DbError>): (r: Result<Option<Link>, DbError>)
    ensures r.Failure? <==> failure.Some?
    ensures r.Failure? ==> r.error == failure.value
    ensures r.Success? ==> (r.value.Some? <==> code in t) && (r.value.Some? ==> r.value.value == t[code])
  {
    if failure.Some? then Failure(failure.value)
    else if code in t then Success(Some(t[code]))
    else Success(None)
  }

  /** `SELECT 1 FROM links WHERE code = $1`, answered as "did any row come back". */
  function SelectExists(t: Table, code: string, failure: Option<DbError>): (r: Result<bool, DbError>)
    ensures r.Failure? <==> failure.Some?
    ensures r.Failure? ==> r.error == failure.value
    ensures r.Success? ==> (r.value <==> code in t)
  {
    if failure.Some? then Failure(failure.value)
    else Success(code in t)
  }

  /** `DELETE FROM links WHERE code = $1 RETURNING *` */
  function Delete(t: Table, code: string, failure: Option<DbError>): (e: Exec<Option<Link>>)
  {
    if failure.Some? then Exec(t, Failure(failure.value))
    else if code in t then Exec(t - {code}, Success(Some(t[code])))
    else Exec(t, Success(None))
  }

  /** `UPDATE links SET clicks = clicks + 1, last_clicked = now WHERE code = $1 RETURNING original_url` */
  function Update(t: Table, code: string, now: nat, failure: Option<DbError>): (e: Exec<Option<string>>)
  {
    if failure.Some? then Exec(t, Failure(failure.value))
    else if code !in t then Exec(t, Success(None))
    else if t[code].clicks >= MaxInteger then Exec(t, Failure(NumericOutOfRange))
    else
      var row := t[code];
      Exec(t[code := row.(clicks := row.clicks + 1, lastClicked := Some(now))], Success(Some(row.originalUrl)))
  }

  /**
   * INSERT with a fresh code of at most 8 characters adds exactly one row, carrying
   * that code and URL, `clicks = 0`, `created_at = now` and `last_clicked = NULL`, and
   * returns it; with a code already in the table it raises the unique violation;
   * whatever it raises, the table is unchanged.
   */
  lemma InsertSemantics(t: Table, code: string, originalUrl: string, now: nat, failure: Option<DbError>, e: Exec<Link>)
    requires e == Insert(t, code, originalUrl, now, failure)
    ensures failure.Some? ==> e == Exec(t, Failure(failure.value))
    ensures e.result.Failure? ==> e.table == t
    ensures e.result.Success? ==>
      var row := e.result.value;
      row.code !in t && e.table == t[row.code := row] &&
      row == Link(row.code, originalUrl, 0, now, None)
    ensures failure.None? && |code| <= MaxCodeLength ==>
      (e.result.Success? <==> code !in t) &&
      (e.result.Success? ==> e.result.value.code == code) &&
      (code in t ==> e.result == Failure(UniqueViolation))
    ensures WellFormed(t) ==> WellFormed(e.table)
  {
  }

  /**
   * DELETE removes exactly the row with `code` and returns it; when there is none it
   * returns nothing and the table is unchanged. No other row changes.
   */
  lemma DeleteSemantics(t: Table, code: string, failure: Option<DbError>, e: Exec<Option<Link>>)
    requires e == Delete(t, code, failure)
    ensures failure.Some? ==> e == Exec(t, Failure(failure.value))
    ensures failure.None? ==> e.result.Success? && (e.result.value.Some? <==> code in t)
    ensures e.result.Success? && e.result.value.Some? ==> e.result.value.value == t[code]
    ensures failure.None? ==> e.table.Keys == t.Keys - {code}
    ensures forall c | c in e.table :: c in t && e.table[c] == t[c]
    ensures WellFormed(t) ==> WellFormed(e.table)
  {
  }

  /**
   * UPDATE of an existing code raises `clicks` by exactly one, sets `last_clicked` and
   * returns `original_url`; every other row and field is untouched. An absent code
   * returns nothing and changes nothing; at the INTEGER limit the statement raises.
   */
  lemma UpdateSemantics(t: Table, code: string, now: nat, failure: Option<DbError>, e: Exec<Option<string>>)
    requires e == Update(t, code, now, failure)
    ensures failure.Some? ==> e == Exec(t, Failure(failure.value))
    ensures e.result.Failure? ==> e.table == t
    ensures failure.None? && code !in t ==> e == Exec(t, Success(None))
    ensures failure.None? && code in t ==> (e.result.Success? <==> t[code].clicks < MaxInteger)
    ensures failure.None? && code in t && t[code].clicks >= MaxInteger ==> e.result == Failure(NumericOutOfRange)
    ensures failure.None? && code in t && t[code].clicks < MaxInteger ==> e.result == Success(Some(t[code].originalUrl))
    ensures e.result.Success? && e.result.value.Some? ==>
      code in t && e.result.value.value == t[code].originalUrl &&
      e.table.Keys == t.Keys &&
      e.table[code] == t[code].(clicks := t[code].clicks + 1, lastClicked := Some(now)) &&
      forall c | c in t && c != code :: e.table[c] == t[c]
    ensures WellFormed(t) ==> WellFormed(e.table)
  {
  }

  /** `s` draws every row from `t`, each as stored. */
  ghost predicate FromTable(t: Table, s: seq<Link>)
  {
    forall x | x in s :: x.code in t && t[x.code] == x
  }

  /** Every row of `t` appears in `s`. */
  ghost predicate Covers(t: Table, s: seq<Link>)
  {
    forall c | c in t :: t[c] in s
  }

  /** No code appears twice in `s`. */
  ghost predicate UniqueCodes(s: seq<Link>)
  {
    forall i, j | 0 <= i < j < |s| :: s[i].code != s[j].code
  }

  /** `ORDER BY created_at DESC`: rows with equal `created_at` come in no defined order. */
  ghost predicate NewestFirst(s: seq<Link>)
  {
    forall i, j | 0 <= i < j < |s| :: s[i].createdAt >= s[j].createdAt
  }

  /**
   * `SELECT code, original_url, clicks, created_at, last_clicked FROM links ORDER BY created_at DESC`
   * may return `s`: every row of `t` exactly once, newest first.
   */
  ghost predicate IsListing(t: Table, s: seq<Link>)
  {
    FromTable(t, s) && Covers(t, s) && UniqueCodes(s) && NewestFirst(s)
  }

  /** The codes that occur in `s`. */
  ghost function CodesOf(s: seq<Link>): set<string>
  {
    set i | 0 <= i < |s| :: s[i].code
  }

  lemma {:induction false} UniqueCodesCount(s: seq<Link>)
    requires UniqueCodes(s)
    ensures |CodesOf(s)| == |s|
  {
    if s != [] {
      var init := s[..|s| - 1];
      assert UniqueCodes(init);
      UniqueCodesCount(init);
      assert CodesOf(s) == CodesOf(init) + {s[|s| - 1].code} by {
        forall c | c in CodesOf(s) ensures c in CodesOf(init) + {s[|s| - 1].code} {
          var i :| 0 <= i < |s| && s[i].code == c;
          if i < |s| - 1 { assert init[i] == s[i]; }
        }
      }
      assert s[|s| - 1].code !in CodesOf(init);
    }
  }

  /** A listing has exactly as many rows as the table. */
  lemma ListingLength(t: Table, s: seq<Link>)
    requires WellFormed(t) && IsListing(t, s)
    ensures |s| == |t|
  {
    UniqueCodesCount(s);
    assert CodesOf(s) == t.Keys by {
      forall c | c in t ensures c in CodesOf(s) {
        var i :| 0 <= i < |s| && s[i] == t[c];
      }
    }
  }

  /** The three statements that write to the table, run without faults. */
  datatype Statement =
    | InsertRow(code: string, originalUrl: string, now: nat)
    | DeleteRow(code: string)
    | ClickRow(code: string, now: nat)

  /** The table after one statement; a statement that raises leaves it as it was. */
  function Apply(t: Table, s: Statement): Table
  {
    match s
    case InsertRow(code, url, now) => Insert(t, code, url, now, None).table
    case DeleteRow(code) => Delete(t, code, None).table
    case ClickRow(code, now) => Update(t, code, now, None).table
  }

  /** The table after a sequence of statements, in order. */
  function Run(t: Table, stmts: seq<Statement>): Table
    decreases |stmts|
  {
    if stmts == [] then t else Run(Apply(t, stmts[0]), stmts[1..])
  }

  /** How many of `stmts` are redirects of `code`. */
  function ClicksOn(stmts: seq<Statement>, code: string): nat
    decreases |stmts|
  {
    if stmts == [] then 0
    else (if stmts[0].ClickRow? && stmts[0].code == code then 1 else 0) + ClicksOn(stmts[1..], code)
  }

  /** No statement of `stmts` deletes `code`. */
  predicate KeepsCode(stmts: seq<Statement>, code: string)
  {
    forall i | 0 <= i < |stmts| :: !(stmts[i].DeleteRow? && stmts[i].code == code)
  }

  function Min(a: int, b: int): int
  {
    if a <= b then a else b
  }

  /** A row's identity: its code, its URL and its creation time. */
  predicate SameIdentity(a: Link, b: Link)
  {
    a.code == b.code && a.originalUrl == b.originalUrl && a.createdAt == b.createdAt
  }

  lemma InsertKeepsRow(t: Table, c: string, url: string, now: nat, code: string)
    requires code in t
    ensures code in Insert(t, c, url, now, None).table
    ensures Insert(t, c, url, now, None).table[code] == t[code]
  {
  }

  lemma DeleteKeepsRow(t: Table, c: string, code: string)
    requires code in t && c != code
    ensures code in Delete(t, c, None).table
    ensures Delete(t, c, None).table[code] == t[code]
  {
  }

  lemma UpdateCountsRow(t: Table, c: string, now: nat, code: string)
    requires code in t && t[code].clicks <= MaxInteger
    ensures code in Update(t, c, now, None).table
    ensures SameIdentity(Update(t, c, now, None).table[code], t[code])
    ensures Update(t, c, now, None).table[code].clicks == Min(t[code].clicks + (if c == code then 1 else 0), MaxInteger)
  {
  }

  /** One write leaves a row it does not delete in place, and counts a redirect of it. */
  lemma ApplyKeepsRow(t: Table, s: Statement, code: string)
    requires code in t && t[code].clicks <= MaxInteger && !(s.DeleteRow? && s.code == code)
    ensures code in Apply(t, s)
    ensures SameIdentity(Apply(t, s)[code], t[code])
    ensures Apply(t, s)[code].clicks == Min(t[code].clicks + (if s.ClickRow? && s.code == code then 1 else 0), MaxInteger)
  {
    match s
    case InsertRow(c, url, now) => InsertKeepsRow(t, c, url, now, code);
    case DeleteRow(c) => DeleteKeepsRow(t, c, code);
    case ClickRow(c, now) => UpdateCountsRow(t, c, now, code);
  }

  lemma ApplyWellFormed(t: Table, s: Statement)
    requires WellFormed(t)
    ensures WellFormed(Apply(t, s))
  {
    match s
    case InsertRow(c, url, now) => InsertSemantics(t, c, url, now, None, Insert(t, c, url, now, None));
    case DeleteRow(c) => DeleteSemantics(t, c, None, Delete(t, c, None));
    case ClickRow(c, now) => UpdateSemantics(t, c, now, None, Update(t, c, now, None));
  }

  /** Every sequence of writes keeps the schema's guarantees. */
  lemma {:induction false} RunWellFormed(t: Table, stmts: seq<Statement>)
    requires WellFormed(t)
    ensures WellFormed(Run(t, stmts))
    decreases |stmts|
  {
    if stmts != [] {
      ApplyWellFormed(t, stmts[0]);
      RunWellFormed(Apply(t, stmts[0]), stmts[1..]);
    }
  }

  /**
   * A row that no statement deletes survives every sequence of writes with its
   * code, URL and creation time unchanged, and its click count rises by exactly
   * one per redirect of its code, until it reaches the INTEGER limit.
   */
  lemma {:induction false} RunKeepsRow(t: Table, stmts: seq<Statement>, code: string)
    requires code in t && t[code].clicks <= MaxInteger && KeepsCode(stmts, code)
    ensures code in Run(t, stmts)
    ensures SameIdentity(Run(t, stmts)[code], t[code])
    ensures Run(t, stmts)[code].clicks == Min(t[code].clicks + ClicksOn(stmts, code), MaxInteger)
    decreases |stmts|
  {
    if stmts != [] {
      var u := Apply(t, stmts[0]);
      var d := if stmts[0].ClickRow? && stmts[0].code == code then 1 else 0;
      assert !(stmts[0].DeleteRow? && stmts[0].code == code);
      ApplyKeepsRow(t, stmts[0], code);
      KeepsCodeTail(stmts, code);
      assert Run(t, stmts) == Run(u, stmts[1..]);
      RunKeepsRow(u, stmts[1..], code);
      assert ClicksOn(stmts, code) == d + ClicksOn(stmts[1..], code);
      MinStep(t[code].clicks, d, ClicksOn(stmts[1..], code));
    }
  }

  lemma KeepsCodeTail(stmts: seq<Statement>, code: string)
    requires stmts != [] && KeepsCode(stmts, code)
    ensures KeepsCode(stmts[1..], code)
  {
    forall i | 0 <= i < |stmts[1..]| ensures !(stmts[1..][i].DeleteRow? && stmts[1..][i].code == code) {
      assert stmts[1..][i] == stmts[i + 1];
    }
  }

  lemma MinStep(x: int, d: int, k: nat)
    requires x <= MaxInteger && 0 <= d <= 1
    ensures Min(Min(x + d, MaxInteger) + k, MaxInteger) == Min(x + d + k, MaxInteger)
  {
  }

  /** `|times|` redirects of one code, at the given times. */
  function Clicks(code: string, times: seq<nat>): (stmts: seq<Statement>)
    ensures |stmts| == |times|
  {
    if times == [] then [] else [ClickRow(code, times[0])] + Clicks(code, times[1..])
  }

  /**
   * Redirects are all counted: after `|times|` redirects of an existing code with
   * room left below the INTEGER limit, `clicks` has grown by exactly `|times|`
   * and `last_clicked` holds the time of the last one.
   */
  lemma {:induction false} ClicksCounted(t: Table, code: string, times: seq<nat>)
    requires WellFormed(t) && code in t && t[code].clicks + |times| <= MaxInteger
    ensures code in Run(t, Clicks(code, times))
    ensures Run(t, Clicks(code, times))[code].clicks == t[code].clicks + |times|
    ensures times != [] ==> Run(t, Clicks(code, times))[code].lastClicked == Some(times[|times| - 1])
    ensures times == [] ==> Run(t, Clicks(code, times)) == t
    decreases |times|
  {
    if times != [] {
      var stmts := Clicks(code, times);
      assert stmts[1..] == Clicks(code, times[1..]);
      var u := Apply(t, stmts[0]);
      assert code in u && u[code].clicks == t[code].clicks + 1;
      ClicksCounted(u, code, times[1..]);
      if times[1..] != [] {
        assert times[1..][|times[1..]| - 1] == times[|times| - 1];
      }
    }
  }

  /** Inserts `row` into a newest-first sequence, after every row at least as new. */
  method PlaceByCreatedAt(s: seq<Link>, row: Link) returns (r: seq<Link>)
    requires NewestFirst(s) && UniqueCodes(s)
    requires forall x | x in s :: x.code != row.code
    ensures NewestFirst(r) && UniqueCodes(r)
    ensures row in r && forall x | x in s :: x in r
    ensures forall x | x in r :: x == row || x in s
  {
    var k := 0;
    while k < |s| && s[k].createdAt >= row.createdAt
      invariant 0 <= k <= |s|
      invariant forall i | 0 <= i < k :: s[i].createdAt >= row.createdAt
    {
      k := k + 1;
    }
    r := s[..k] + [row] + s[k..];
    Splice(s, row, k);
  }

  /** What inserting `row` at position `k` of `s` keeps. */
  lemma Splice(s: seq<Link>, row: Link, k: nat)
    requires k <= |s| && NewestFirst(s) && UniqueCodes(s)
    requires forall i | 0 <= i < |s| :: s[i].code != row.code
    requires forall i | 0 <= i < k :: s[i].createdAt >= row.createdAt
    requires forall i | k <= i < |s| :: s[i].createdAt < row.createdAt
    ensures NewestFirst(s[..k] + [row] + s[k..]) && UniqueCodes(s[..k] + [row] + s[k..])
    ensures row in s[..k] + [row] + s[k..]
    ensures forall x | x in s :: x in s[..k] + [row] + s[k..]
    ensures forall x | x in s[..k] + [row] + s[k..] :: x == row || x in s
  {
    var r := s[..k] + [row] + s[k..];
    assert forall i | 0 <= i < |r| :: r[i] == if i < k then s[i] else if i == k then row else s[i - 1];
    forall x | x in s ensures x in r {
      var i :| 0 <= i < |s| && s[i] == x;
      if i < k { assert r[i] == x; } else { assert r[i + 1] == x; }
    }
  }

  /** The links table, updated in place by the statements above. */
  class LinkTable {
    var rows: Table

    ghost predicate Valid()
      reads this
    {
      WellFormed(rows)
    }

    /** `CREATE TABLE IF NOT EXISTS links (...)` on a fresh database. */
    constructor ()
      ensures Valid() && rows == map[]
    {
      rows := map[];
    }

    /** `LinkModel.create`. */
    method Create(code: string, originalUrl: string, now: nat, failure: Option<DbError>) returns (r: Result<Link, DbError>)
      requires Valid()
      modifies this
      ensures Valid()
      ensures Exec(rows, r) == Insert(old(rows), code, originalUrl, now, failure)
    {
      if failure.Some? {
        return Failure(failure.value);
      }
      var key := StoredCode(code);
      if key.None? {
        return Failure(StringTooLong);
      }
      if key.value in rows {
        return Failure(UniqueViolation);
      }
      var row := NewRow(key.value, originalUrl, now);
      rows := rows[key.value := row];
      r := Success(row);
    }

    /** `LinkModel.findAll`: every row once, newest first. */
    method FindAll(failure: Option<DbError>) returns (r: Result<seq<Link>, DbError>)
      requires Valid()
      ensures failure.Some? ==> r == Failure(failure.value)
      ensures failure.None? ==> r.Success? && IsListing(rows, r.value)
    {
      if failure.Some? {
        return Failure(failure.value);
      }
      var pending := rows.Keys;
      var listed: seq<Link> := [];
      while pending != {}
        invariant pending <= rows.Keys
        invariant FromTable(rows, listed)
        invariant forall x | x in listed :: x.code !in pending
        invariant forall c | c in rows && c !in pending :: rows[c] in listed
        invariant UniqueCodes(listed)
        invariant NewestFirst(listed)
        decreases pending
      {
        var c :| c in pending;
        listed := PlaceByCreatedAt(listed, rows[c]);
        pending := pending - {c};
      }
      return Success(listed);
    }

    /** `LinkModel.findByCode`. */
    method FindByCode(code: string, failure: Option<DbError>) returns (r: Result<Option<Link>, DbError>)
      ensures r == Select(rows, code, failure)
    {
      if failure.Some? {
        return Failure(failure.value);
      }
      if code in rows {
        return Success(Some(rows[code]));
      }
      return Success(None);
    }

    /** `LinkModel.deleteByCode`. */
    method DeleteByCode(code: string, failure: Option<DbError>) returns (r: Result<Option<Link>, DbError>)
      requires Valid()
      modifies this
      ensures Valid()
      ensures Exec(rows, r) == Delete(old(rows), code, failure)
    {
      if failure.Some? {
        return Failure(failure.value);
      }
      if code !in rows {
        return Success(None);
      }
      var row := rows[code];
      rows := rows - {code};
      r := Success(Some(row));
    }

    /** `LinkModel.incrementClick`. */
    method IncrementClick(code: string, now: nat, failure: Option<DbError>) returns (r: Result<Option<string>, DbError>)
      requires Valid()
      modifies this
      ensures Valid()
      ensures Exec(rows, r) == Update(old(rows), code, now, failure)
    {
      if failure.Some? {
        return Failure(failure.value);
      }
      if code !in rows {
        return Success(None);
      }
      var row := rows[code];
      if row.clicks >= MaxInteger {
        return Failure(NumericOutOfRange);
      }
      rows := rows[code := row.(clicks := row.clicks + 1, lastClicked := Some(now))];
      r := Success(Some(row.originalUrl));
    }

    /** `LinkModel.codeExists`. */
    method CodeExists(code: string, failure: Option<DbError>) returns (r: Result<bool, DbError>)
      ensures r == SelectExists(rows, code, failure)
    {
      if failure.Some? {
        return Failure(failure.value);
      }
      r := Success(code in rows);
    }
  }

  /** `codeExists(c)` answers true exactly when `findByCode(c)` finds a row. */
  lemma ExistsIffFound(t: Table, code: string, failure: Option<DbError>)
    ensures SelectExists(t, code, failure).Success? == Select(t, code, failure).Success?
    ensures SelectExists(t, code, failure).Success? ==>
      (SelectExists(t, code, failure).value <==> Select(t, code, failure).value.Some?)
  {
  }
}
