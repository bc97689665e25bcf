/** The data-access shim of db.js: `query`, `getOne` and `run` over a PostgreSQL
    pool. The pool and the driver are outside the model; what is modelled is the
    statement text each helper sends and the shape of what it returns. */
module Db {
  import opened Wrappers
  import opened Text
  import opened Json

  // ---------------------------------------------------------------------------
  // Placeholder rewrite: every `?` becomes `$1`, `$2`, ... from the left

  function PlaceholderCount(s: string): nat
  {
    if s == [] then 0 else (if s[0] == '?' then 1 else 0) + PlaceholderCount(s[1..])
  }

  /** The text `s.replace(/\?/g, () => `$${paramIndex++}`)` produces when the
      counter holds `n` on entry: no SQL awareness, so quoted `?` are rewritten too. */
  function Numbered(s: string, n: nat): string
  {
    if s == [] then []
    else if s[0] == '?' then "$" + Decimal(n) + Numbered(s[1..], n + 1)
    else [s[0]] + Numbered(s[1..], n)
  }

  lemma {:induction false} PlaceholderCountConcat(a: string, b: string)
    ensures PlaceholderCount(a + b) == PlaceholderCount(a) + PlaceholderCount(b)
  {
    if a == [] {
      assert a + b == b;
    } else {
      assert (a + b)[1..] == a[1..] + b;
      PlaceholderCountConcat(a[1..], b);
    }
  }

  /** The rewrite works left to right: the text after a prefix is numbered from
      one past the prefix's last placeholder. */
  lemma {:induction false} NumberedConcat(a: string, b: string, n: nat)
    ensures Numbered(a + b, n) == Numbered(a, n) + Numbered(b, n + PlaceholderCount(a))
  {
    if a == [] {
      assert a + b == b;
    } else {
      assert (a + b)[0] == a[0];
      assert (a + b)[1..] == a[1..] + b;
      if a[0] == '?' {
        NumberedConcat(a[1..], b, n + 1);
      } else {
        NumberedConcat(a[1..], b, n);
      }
    }
  }

  /** No `?` survives the rewrite. */
  lemma {:induction false} NumberedHasNoPlaceholder(s: string, n: nat)
    ensures '?' !in Numbered(s, n)
  {
    if s != [] {
      if s[0] == '?' {
        NumberedHasNoPlaceholder(s[1..], n + 1);
        var d := Decimal(n);
        assert forall i :: 0 <= i < |d| ==> d[i] != '?';
      } else {
        NumberedHasNoPlaceholder(s[1..], n);
      }
    }
  }

  /** A statement comes back unchanged exactly when it has no `?`: characters
      other than `?` are passed through in order. */
  lemma {:induction false} NumberedIdentity(s: string, n: nat)
    ensures Numbered(s, n) == s <==> '?' !in s
  {
    if '?' !in s {
      NumberedKeepsPlain(s, n);
    } else {
      NumberedHasNoPlaceholder(s, n);
    }
  }

  lemma {:induction false} NumberedKeepsPlain(s: string, n: nat)
    requires '?' !in s
    ensures Numbered(s, n) == s
  {
    if s != [] {
      assert s[0] in s;
      assert forall c :: c in s[1..] ==> c in s;
      NumberedKeepsPlain(s[1..], n);
    }
  }

  /** The k-th `?` from the left (k counted from n) becomes `$k`, and the
      text around it is rewritten with the numbering before and after it. */
  lemma NumberedAtPlaceholder(s: string, i: nat, n: nat)
    requires i < |s| && s[i] == '?'
    ensures Numbered(s, n) ==
      Numbered(s[..i], n) + "$" + Decimal(n + PlaceholderCount(s[..i])) +
      Numbered(s[i + 1..], n + PlaceholderCount(s[..i]) + 1)
  {
    assert s == s[..i] + s[i..];
    NumberedConcat(s[..i], s[i..], n);
    var k := n + PlaceholderCount(s[..i]);
    assert s[i..][0] == '?' && s[i..][1..] == s[i + 1..];
    assert Numbered(s[i..], k) == "$" + Decimal(k) + Numbered(s[i + 1..], k + 1);
  }

  /** Rewriting the output of the rewrite changes nothing. */
  lemma NumberedIdempotent(s: string, n: nat, m: nat)
    ensures Numbered(Numbered(s, n), m) == Numbered(s, n)
  {
    NumberedHasNoPlaceholder(s, n);
    NumberedKeepsPlain(Numbered(s, n), m);
  }

  /** The rewrite as db.js performs it (lines 15-17 and 35-37): a scan of the
      statement with a counter that starts at 1 on every call. */
  method RewritePlaceholders(sql: string) returns (pgSql: string)
    ensures pgSql == Numbered(sql, 1)
    ensures '?' !in pgSql
  {
    pgSql := "";
    var paramIndex := 1;
    var i := 0;
    while i < |sql|
      invariant 0 <= i <= |sql|
      invariant paramIndex == 1 + PlaceholderCount(sql[..i])
      invariant pgSql == Numbered(sql[..i], 1)
    {
      assert sql[..i + 1] == sql[..i] + [sql[i]];
      NumberedConcat(sql[..i], [sql[i]], 1);
      PlaceholderCountConcat(sql[..i], [sql[i]]);
      if sql[i] == '?' {
        pgSql := pgSql + "$" + Decimal(paramIndex);
        paramIndex := paramIndex + 1;
      } else {
        pgSql := pgSql + [sql[i]];
      }
      i := i + 1;
    }
    assert sql[..i] == sql;
    NumberedHasNoPlaceholder(sql, 1);
  }

  // ---------------------------------------------------------------------------
  // Synthetic `RETURNING id` for inserts (db.js lines 40-42)

  const ReturningId: string := " RETURNING id"

  /** `pgSql.trim().toUpperCase().startsWith('INSERT')` */
  predicate IsInsert(s: string)
  {
    StartsWith(Upper(Trim(s)), "INSERT")
  }

  /** `pgSql.toUpperCase().includes('RETURNING')` */
  predicate HasReturning(s: string)
  {
    Contains(Upper(s), "RETURNING")
  }

  /** The statement after the append step. */
  function WithReturningId(s: string): string
  {
    if IsInsert(s) && !HasReturning(s) then s + ReturningId else s
  }

  /** The suffix is appended exactly to inserts that lack a RETURNING clause;
      every other statement is left as it is. */
  lemma WithReturningIdIff(s: string)
    ensures WithReturningId(s) == s + ReturningId <==> IsInsert(s) && !HasReturning(s)
    ensures WithReturningId(s) == s <==> !(IsInsert(s) && !HasReturning(s))
  {
  }

  /** An UPDATE or DELETE statement never gets the suffix. */
  lemma UpdateAndDeleteUnchanged(s: string)
    requires StartsWith(Upper(Trim(s)), "UPDATE") || StartsWith(Upper(Trim(s)), "DELETE")
    ensures WithReturningId(s) == s
  {
  }

  /** What the append step adds always contains RETURNING. */
  lemma SuffixHasReturning(s: string)
    ensures HasReturning(s + ReturningId)
  {
    UpperConcat(s, ReturningId);
    var u := Upper(s + ReturningId);
    assert u[|s| + 1..][..9] == "RETURNING";
    ContainsAt(u, "RETURNING", |s| + 1);
  }

  /** The append step is idempotent. */
  lemma WithReturningIdIdempotent(s: string)
    ensures WithReturningId(WithReturningId(s)) == WithReturningId(s)
  {
    if IsInsert(s) && !HasReturning(s) {
      SuffixHasReturning(s);
    }
  }

  // The checks on the rewritten statement give the same answers as on the
  // original: the rewrite only inserts `$` and digits where `?` stood.

  lemma UpperCharIsPlaceholder(c: char)
    ensures UpperChar(c) == '?' <==> c == '?'
  {
  }

  lemma {:induction false} UpperNumbered(s: string, n: nat)
    ensures Upper(Numbered(s, n)) == Numbered(Upper(s), n)
  {
    if s != [] {
      var u := Upper(s);
      assert u[0] == UpperChar(s[0]) && u[1..] == Upper(s[1..]);
      UpperCharIsPlaceholder(s[0]);
      if s[0] == '?' {
        UpperNumbered(s[1..], n + 1);
        UpperConcat("$" + Decimal(n), Numbered(s[1..], n + 1));
        UpperConcat("$", Decimal(n));
        UpperOfDigits(Decimal(n));
      } else {
        UpperNumbered(s[1..], n);
        UpperConcat([s[0]], Numbered(s[1..], n));
      }
    }
  }

  lemma {:induction false} NumberedStartsWith(u: string, w: string, n: nat)
    requires forall i :: 0 <= i < |w| ==> w[i] != '?' && w[i] != '$'
    ensures StartsWith(Numbered(u, n), w) <==> StartsWith(u, w)
  {
    if w != [] && u != [] {
      var x := Numbered(u, n);
      if u[0] == '?' {
        assert x[0] == '$';
      } else {
        assert x[0] == u[0] && x[1..] == Numbered(u[1..], n);
        assert StartsWith(x, w) <==> x[0] == w[0] && StartsWith(x[1..], w[1..]);
        assert StartsWith(u, w) <==> u[0] == w[0] && StartsWith(u[1..], w[1..]);
        NumberedStartsWith(u[1..], w[1..], n);
      }
    }
  }

  lemma {:induction false} NumberedContains(u: string, w: string, n: nat)
    requires w != [] && !IsDigit(w[0])
    requires forall i :: 0 <= i < |w| ==> w[i] != '?' && w[i] != '$'
    ensures Contains(Numbered(u, n), w) <==> Contains(u, w)
  {
    if u != [] {
      var x := Numbered(u, n);
      NumberedStartsWith(u, w, n);
      if u[0] == '?' {
        var d := "$" + Decimal(n);
        assert x == d + Numbered(u[1..], n + 1);
        ContainsSkip(d, Numbered(u[1..], n + 1), w);
        NumberedContains(u[1..], w, n + 1);
      } else {
        assert x[1..] == Numbered(u[1..], n);
        NumberedContains(u[1..], w, n);
      }
    }
  }

  lemma {:induction false} TrimStartNumbered(s: string, n: nat)
    ensures TrimStart(Numbered(s, n)) == Numbered(TrimStart(s), n)
  {
    if s != [] {
      if IsJsWhitespace(s[0]) {
        assert Numbered(s, n)[0] == s[0] && Numbered(s, n)[1..] == Numbered(s[1..], n);
        TrimStartNumbered(s[1..], n);
      } else if s[0] == '?' {
        assert Numbered(s, n)[0] == '$';
      } else {
        assert Numbered(s, n)[0] == s[0];
      }
    }
  }

  /** Trimming the end cannot affect a prefix that ends in a non-blank character. */
  lemma TrimmedStartsWith(t: string, w: string)
    requires w != [] && !IsJsWhitespace(w[|w| - 1])
    ensures StartsWith(Upper(Trim(t)), w) <==> StartsWith(Upper(TrimStart(t)), w)
  {
    var x := TrimStart(t);
    var y := TrimEnd(x);
    TrimEndIsPrefix(x, |w| - 1);
    assert Upper(y) == Upper(x)[..|y|];
    if StartsWith(Upper(x), w) {
      var c := x[|w| - 1];
      assert UpperChar(c) == w[|w| - 1];
      if IsJsWhitespace(c) {
        UpperCharOfWhitespace(c);
      }
    }
  }

  /** The append decision made on the rewritten statement (as db.js does) is
      the decision on the statement the caller wrote. */
  lemma AppendDecisionCommutes(s: string, n: nat)
    ensures IsInsert(Numbered(s, n)) == IsInsert(s)
    ensures HasReturning(Numbered(s, n)) == HasReturning(s)
  {
    var ins := "INSERT";
    TrimmedStartsWith(Numbered(s, n), ins);
    TrimmedStartsWith(s, ins);
    TrimStartNumbered(s, n);
    UpperNumbered(TrimStart(s), n);
    NumberedStartsWith(Upper(TrimStart(s)), ins, n);
    UpperNumbered(s, n);
    NumberedContains(Upper(s), "RETURNING", n);
  }

  /** The statement `run` sends to the driver (db.js lines 35-42). */
  method PrepareRun(sql: string) returns (pgSql: string)
    ensures pgSql == WithReturningId(Numbered(sql, 1))
    ensures pgSql == Numbered(sql, 1) + ReturningId <==> IsInsert(sql) && !HasReturning(sql)
    ensures !(IsInsert(sql) && !HasReturning(sql)) ==> pgSql == Numbered(sql, 1)
    ensures '?' !in pgSql
  {
    pgSql := RewritePlaceholders(sql);
    if IsInsert(pgSql) && !HasReturning(pgSql) {
      pgSql := pgSql + ReturningId;
    }
    AppendDecisionCommutes(sql, 1);
    WithReturningIdIff(Numbered(sql, 1));
  }

  // ---------------------------------------------------------------------------
  // Result shaping

  /** `rows[0] || null`: a row object is always truthy, so this is the first
      row, or null for an empty result. */
  function GetOne(rows: seq<Row>): (r: Option<Row>)
    ensures r.None? <==> rows == []
    ensures r.Some? ==> r.value == rows[0]
  {
    if rows == [] then None else Some(rows[0])
  }

  /** The record `run` returns, compatible with SQLite's `run()`. */
  datatype RunResult = RunResult(lastID: Option<Value>, changes: Option<nat>)

  /** `{ lastID: result.rows[0]?.id, changes: result.rowCount }`: the driver's
      row count is passed through, possibly null. */
  function RunResultOf(rows: seq<Row>, rowCount: Option<nat>): (r: RunResult)
    ensures r.changes == rowCount
    ensures r.lastID.Some? <==> rows != [] && "id" in rows[0]
    ensures r.lastID.Some? ==> r.lastID.value == rows[0]["id"]
  {
    RunResult(if rows != [] && "id" in rows[0] then Some(rows[0]["id"]) else None, rowCount)
  }

  /** `lastID` is the `id` of the row `getOne` would give for the same rows. */
  lemma RunLastIdIsFirstRowId(rows: seq<Row>, rowCount: Option<nat>)
    ensures RunResultOf(rows, rowCount).lastID ==
      match GetOne(rows)
      case None => None
      case Some(row) => if "id" in row then Some(row["id"]) else None
  {
  }
}
