/** The migration runner: the SQL script is cut at every `;`, each piece is stripped, blank
    pieces are skipped, and the remaining statements are executed in order until one fails. */
module Migrations {
  import opened Wrappers
  import opened Text

  const Terminator: char := ';'

  /** A statement as it is sent to the database: not blank, no surrounding whitespace. */
  predicate Trimmed(statement: string) {
    statement != [] && !IsSpace(statement[0]) && !IsSpace(statement[|statement| - 1])
  }

  /** What one piece contributes: its stripped text, or nothing when it is blank. */
  function Piece(piece: string): (r: seq<string>)
    ensures |r| <= 1
    ensures r == [] <==> AllSpace(piece)
    ensures forall k :: 0 <= k < |r| ==> r[k] == Strip(piece) && Trimmed(r[k])
  {
    var statement := Strip(piece);
    if statement == [] then [] else [statement]
  }

  /** The stripped, non-blank pieces, in order. */
  function Kept(pieces: seq<string>): seq<string> {
    if pieces == [] then [] else Kept(pieces[..|pieces| - 1]) + Piece(pieces[|pieces| - 1])
  }

  /** Every kept piece is trimmed. */
  lemma {:induction false} KeptTrimmed(pieces: seq<string>)
    ensures forall k :: 0 <= k < |Kept(pieces)| ==> Trimmed(Kept(pieces)[k])
  {
    if pieces != [] {
      var init := pieces[..|pieces| - 1];
      KeptTrimmed(init);
      TrimmedAppend(Kept(init), Piece(pieces[|pieces| - 1]));
    }
  }

  lemma TrimmedAppend(a: seq<string>, b: seq<string>)
    requires forall k :: 0 <= k < |a| ==> Trimmed(a[k])
    requires forall k :: 0 <= k < |b| ==> Trimmed(b[k])
    ensures forall k :: 0 <= k < |a + b| ==> Trimmed((a + b)[k])
  {
  }

  /** Stripping cannot introduce a character the piece did not have. */
  lemma StripKeepsOut(piece: string, c: char)
    requires c !in piece
    ensures c !in Strip(piece)
  {
    var r := Strip(piece);
    StripIsSlice(piece);
    forall m | 0 <= m < |r| ensures r[m] != c {
      assert r[m] == piece[Lead(piece) + m];
    }
  }

  /** Pieces free of `;` give statements free of `;`. */
  lemma {:induction false} KeptWithoutTerminator(pieces: seq<string>)
    requires forall j :: 0 <= j < |pieces| ==> Terminator !in pieces[j]
    ensures forall k :: 0 <= k < |Kept(pieces)| ==> Terminator !in Kept(pieces)[k]
  {
    if pieces != [] {
      var init := pieces[..|pieces| - 1];
      KeptWithoutTerminator(init);
      StripKeepsOut(pieces[|pieces| - 1], Terminator);
    }
  }

  /** The statements the runner executes for a script, in script order: trimmed, and free of
      `;`. */
  function Statements(sql: string): (statements: seq<string>)
    ensures forall k :: 0 <= k < |statements| ==> Trimmed(statements[k]) && Terminator !in statements[k]
  {
    var pieces := Split(sql, Terminator);
    KeptTrimmed(pieces);
    KeptWithoutTerminator(pieces);
    Kept(pieces)
  }

  /** A script without `;` is one statement, the stripped script, or none when it is blank. */
  lemma ScriptWithoutTerminator(sql: string)
    requires Terminator !in sql
    ensures AllSpace(sql) ==> Statements(sql) == []
    ensures !AllSpace(sql) ==> Statements(sql) == [Strip(sql)]
  {
    SplitWithoutSeparator(sql, Terminator);
    assert Kept([sql]) == Kept([]) + Piece(sql);
  }

  /** Cutting the script further can only add statements at the end. */
  lemma {:induction false} KeptPrefix(pieces: seq<string>, n: nat)
    requires n <= |pieces|
    ensures |Kept(pieces[..n])| <= |Kept(pieces)|
    ensures Kept(pieces[..n]) == Kept(pieces)[..|Kept(pieces[..n])|]
  {
    if n < |pieces| {
      var init := pieces[..|pieces| - 1];
      assert init[..n] == pieces[..n];
      KeptPrefix(init, n);
    } else {
      assert pieces[..n] == pieces;
    }
  }

  /** One more piece adds its stripped text as a statement unless it is blank. */
  lemma KeptStep(pieces: seq<string>, i: nat)
    requires i < |pieces|
    ensures Kept(pieces[..i + 1]) == Kept(pieces[..i]) + Piece(pieces[i])
  {
    assert pieces[..i + 1][..i] == pieces[..i];
  }

  /** Every statement was accepted by the database, given those executed before it. */
  predicate AllAccepted(statements: seq<string>, accepts: (seq<string>, string) -> bool) {
    forall k :: 0 <= k < |statements| ==> accepts(statements[..k], statements[k])
  }

  lemma AcceptedSnoc(statements: seq<string>, s: string, accepts: (seq<string>, string) -> bool)
    requires AllAccepted(statements, accepts) && accepts(statements, s)
    ensures AllAccepted(statements + [s], accepts)
  {
    var all := statements + [s];
    forall k | 0 <= k < |all| ensures accepts(all[..k], all[k]) {
      if k < |statements| {
        assert all[..k] == statements[..k];
      } else {
        assert all[..k] == statements;
      }
    }
  }

  /** A statement rejected somewhere along the way means the whole script is not accepted. */
  lemma RejectionBlocksScript(statements: seq<string>, m: nat, accepts: (seq<string>, string) -> bool)
    requires 1 <= m <= |statements|
    requires !accepts(statements[..m - 1], statements[m - 1])
    ensures !AllAccepted(statements, accepts)
  {
  }

  /** How `apply_migrations` ends. */
  datatype Outcome = Applied | MissingCredentials | StatementFailed(statement: string)

  /** Stopping at a rejected piece: what was sent so far, with the rejected statement last, is
      a prefix of all the statements. */
  lemma StopAt(pieces: seq<string>, i: nat, done: seq<string>)
    requires i < |pieces| && done == Kept(pieces[..i]) && Strip(pieces[i]) != []
    ensures var sent := done + [Strip(pieces[i])];
      && |sent| <= |Kept(pieces)|
      && sent == Kept(pieces)[..|sent|]
      && sent[..|sent| - 1] == done
  {
    KeptStep(pieces, i);
    KeptPrefix(pieces, i + 1);
    assert Piece(pieces[i]) == [Strip(pieces[i])];
  }

  /** The statement loop of `apply_migrations`: execute the stripped, non-blank pieces in
      order and stop at the first one the database rejects, which is then returned. */
  method ExecutePieces(pieces: seq<string>, accepts: (seq<string>, string) -> bool)
    returns (sent: seq<string>, rejected: Option<string>)
    ensures rejected.None? ==> sent == Kept(pieces) && AllAccepted(sent, accepts)
    ensures rejected.Some? ==>
      && 1 <= |sent| <= |Kept(pieces)|
      && sent == Kept(pieces)[..|sent|]
      && AllAccepted(sent[..|sent| - 1], accepts)
      && rejected.value == sent[|sent| - 1]
      && !accepts(sent[..|sent| - 1], rejected.value)
  {
    sent := [];
    var i := 0;
    while i < |pieces|
      invariant 0 <= i <= |pieces|
      invariant sent == Kept(pieces[..i])
      invariant AllAccepted(sent, accepts)
    {
      var statement := Strip(pieces[i]);
      KeptStep(pieces, i);
      if statement != [] {
        if !accepts(sent, statement) {
          StopAt(pieces, i, sent);
          return sent + [statement], Some(statement);
        }
        AcceptedSnoc(sent, statement, accepts);
        sent := sent + [statement];
      }
      i := i + 1;
    }
    assert pieces[..i] == pieces;
    rejected := None;
  }

  /** `apply_migrations`: refuse to start without the store URL and key, then execute the
      script's statements in order and stop at the first one the database rejects, re-raising
      its error. `accepts(done, s)` is the database's verdict on statement `s` after the
      statements `done`; `sent` lists the statements sent to the database, in order. */
  method ApplyMigrations(url: Option<string>, key: Option<string>, sql: string,
                         accepts: (seq<string>, string) -> bool)
    returns (sent: seq<string>, outcome: Outcome)
    ensures outcome.MissingCredentials? <==> !Truthy(url) || !Truthy(key)
    ensures outcome.MissingCredentials? ==> sent == []
    ensures outcome.Applied? ==> sent == Statements(sql) && AllAccepted(sent, accepts)
    ensures outcome.StatementFailed? ==>
      && 1 <= |sent| <= |Statements(sql)|
      && sent == Statements(sql)[..|sent|]
      && AllAccepted(sent[..|sent| - 1], accepts)
      && outcome.statement == sent[|sent| - 1]
      && !accepts(sent[..|sent| - 1], outcome.statement)
    ensures !outcome.MissingCredentials? ==>
      (outcome.Applied? <==> AllAccepted(Statements(sql), accepts))
  {
    if !Truthy(url) || !Truthy(key) {
      return [], MissingCredentials;
    }
    var rejected;
    sent, rejected := ExecutePieces(Split(sql, Terminator), accepts);
    if rejected.Some? {
      assert sent[..|sent| - 1] == Statements(sql)[..|sent| - 1];
      RejectionBlocksScript(Statements(sql), |sent|, accepts);
      outcome := StatementFailed(rejected.value);
    } else {
      outcome := Applied;
    }
  }
}
