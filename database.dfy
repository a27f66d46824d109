/**
 * The MySQL sink of database.py: the row `import_products` builds for each
 * product, and the statements it and `run_sql_file` have the cursor execute.
 * The server is a parameter: given the statements executed so far, it accepts
 * a statement or makes `cursor.execute` raise.
 */
module Database {
  import opened Wrappers
  import opened Text
  import opened Pages

  /** The columns of the `INSERT INTO petlebi` statement, in order. */
  const Columns: seq<Field> := [Url, Name, Barcode, Price, Stock, Image, Description, Sku, Category, Brand]

  /** The fields read with `product[...]`, whose absence raises `KeyError`. */
  const Required: set<Field> := {Url, Name, Price, Stock}

  /** A statement handed to `cursor.execute`: the parameterised insert with its values, or a raw SQL command. */
  datatype Statement = Insert(values: seq<Value>) | Execute(command: string)

  /** Whether the server accepts a statement after those already executed (false: `execute` raises). */
  type Server = (seq<Statement>, Statement) -> bool

  /** What running a sequence of statements leaves: whether all ran, and those that did. */
  datatype Outcome = Outcome(ok: bool, executed: seq<Statement>)

  /** `product.get(field, '')`. */
  function GetOrEmpty(product: Record, field: Field): (v: Value)
    ensures field in product ==> v == product[field]
    ensures field !in product ==> v == Str("")
  {
    if field in product then product[field] else Str("")
  }

  /**
   * `product_values` of `import_products`: the product's values in column order,
   * "" for a missing optional field; None when a required field is missing.
   */
  function ToRow(product: Record): (row: Option<seq<Value>>)
    ensures row.Some? <==> Required <= product.Keys
    ensures row.Some? ==> |row.value| == |Columns|
    ensures row.Some? ==> forall i :: 0 <= i < |Columns| ==>
      row.value[i] == if Columns[i] in product then product[Columns[i]] else Str("")
  {
    if Url in product && Name in product && Price in product && Stock in product then
      Some([
        product[Url], product[Name], GetOrEmpty(product, Barcode), product[Price], product[Stock],
        GetOrEmpty(product, Image), GetOrEmpty(product, Description), GetOrEmpty(product, Sku),
        GetOrEmpty(product, Category), GetOrEmpty(product, Brand)])
    else
      None
  }

  /**
   * The cursor runs `statements` in order after `history` until one raises;
   * nothing after a raising statement runs.
   */
  function RunStatements(server: Server, history: seq<Statement>, statements: seq<Statement>): (run: Outcome)
    ensures |run.executed| <= |statements|
    ensures forall i :: 0 <= i < |run.executed| ==> run.executed[i] == statements[i]
    ensures run.ok <==> run.executed == statements
  {
    if statements == [] then Outcome(true, [])
    else
      var before := RunStatements(server, history, statements[..|statements| - 1]);
      if before.ok && server(history + before.executed, Last(statements)) then
        Outcome(true, before.executed + [Last(statements)])
      else
        Outcome(false, before.executed)
  }

  /** The index of the first product lacking a required field, or the number of products. */
  function FirstMissing(products: seq<Record>): (n: nat)
    ensures n <= |products|
    ensures forall i :: 0 <= i < n ==> ToRow(products[i]).Some?
    ensures n < |products| ==> ToRow(products[n]).None?
  {
    if products == [] then 0
    else if ToRow(products[0]).None? then 0
    else 1 + FirstMissing(products[1..])
  }

  /** The insert statements of a list of products, in order. */
  function Inserts(products: seq<Record>): (inserts: seq<Statement>)
    ensures |inserts| <= |products|
  {
    if products == [] then []
    else
      Inserts(products[..|products| - 1]) +
      match ToRow(Last(products)) case Some(row) => [Insert(row)] case None => []
  }

  /**
   * What `import_products` does: the inserts of the products before the first
   * one lacking a required field run until one raises; it succeeds only when
   * every product has its row and every insert runs.
   */
  function Import(server: Server, history: seq<Statement>, products: seq<Record>): (result: Outcome)
    ensures |result.executed| <= |products|
    ensures result.ok ==> forall i :: 0 <= i < |products| ==> Required <= products[i].Keys
    ensures forall i :: 0 <= i < |products| && !(Required <= products[i].Keys) ==> !result.ok
  {
    var n := FirstMissing(products);
    var run := RunStatements(server, history, Inserts(products[..n]));
    Outcome(run.ok && n == |products|, run.executed)
  }

  /** The raw `;`-separated segments of a script that are not blank, in order. */
  function Commands(segments: seq<string>): (commands: seq<Statement>)
    ensures |commands| <= |segments|
    ensures forall i :: 0 <= i < |commands| ==> commands[i].Execute? && !Blank(commands[i].command)
  {
    if segments == [] then []
    else Commands(segments[..|segments| - 1]) + SegmentCommand(Last(segments))
  }

  /** A segment of whitespace only, the ones whose `strip()` is '': every character is whitespace. */
  predicate Blank(segment: string)
    ensures Blank(segment) <==> forall i :: 0 <= i < |segment| ==> IsSpace(segment[i])
  {
    if segment == [] then true
    else
      assert forall i :: 1 <= i < |segment| ==> segment[i] == segment[1..][i - 1];
      IsSpace(segment[0]) && Blank(segment[1..])
  }

  /** `strip()` empties exactly the blank segments. */
  lemma StripBlank(segment: string)
    ensures Strip(segment) == "" <==> Blank(segment)
  {
    StripEmpty(segment);
  }

  /** A segment runs, unstripped, unless it is blank. */
  function SegmentCommand(segment: string): (commands: seq<Statement>)
    ensures |commands| <= 1
    ensures commands == [] <==> Strip(segment) == ""
    ensures commands != [] ==> commands[0] == Execute(segment)
  {
    StripBlank(segment);
    if Blank(segment) then [] else [Execute(segment)]
  }

  /** What `run_sql_file` has the cursor run for a script: its non-blank segments. */
  function ScriptCommands(script: string): (commands: seq<Statement>)
    ensures forall i :: 0 <= i < |commands| ==>
      commands[i].Execute? && ';' !in commands[i].command && !Blank(commands[i].command)
  {
    CommandsAreSegments(Split(script, ';'));
    Commands(Split(script, ';'))
  }

  class Database {
    /** The statements `cursor.execute` has run, in order. */
    var executed: seq<Statement>

    constructor ()
      ensures executed == []
    {
      executed := [];
    }

    /**
     * `import_products`: one insert per product, in input order; a product that
     * lacks a required field, or an insert that raises, stops the loop with False,
     * and the inserts already run stay.
     */
    method ImportProducts(server: Server, products: seq<Record>) returns (ok: bool)
      modifies this
      ensures ok == Import(server, old(executed), products).ok
      ensures executed == old(executed) + Import(server, old(executed), products).executed
    {
      ghost var history := executed;
      ghost var done: seq<Statement> := [];
      var i := 0;
      assert executed + [] == executed;
      while i < |products|
        invariant 0 <= i <= FirstMissing(products)
        invariant executed == history + done
        invariant RunStatements(server, history, Inserts(products[..i])) == Outcome(true, done)
      {
        var row := ToRow(products[i]);
        if row.None? {
          ImportEnds(server, history, products, i, done);
          return false;
        }
        var statement := Insert(row.value);
        ImportNext(server, history, products, i, done);
        if !server(executed, statement) {
          ImportRefused(server, history, products, i + 1);
          return false;
        }
        AppendAssoc(history, done, [statement]);
        executed := executed + [statement];
        done := done + [statement];
        i := i + 1;
      }
      ImportEnds(server, history, products, i, done);
      return true;
    }

    /**
     * `run_sql_file`: the script split on `;`, every segment whose stripped text
     * is not empty run as it stands; a failed read or a raising command returns False.
     * `contents` is None when the file cannot be opened or read.
     */
    method RunSqlFile(server: Server, contents: Option<string>) returns (ok: bool)
      modifies this
      ensures contents.None? ==> !ok && executed == old(executed)
      ensures contents.Some? ==>
        var run := RunStatements(server, old(executed), ScriptCommands(contents.value));
        ok == run.ok && executed == old(executed) + run.executed
    {
      if contents.None? {
        return false;
      }
      ghost var history := executed;
      ghost var done: seq<Statement> := [];
      var sqlCommands := Split(contents.value, ';');
      var i := 0;
      assert executed + [] == executed;
      while i < |sqlCommands|
        invariant 0 <= i <= |sqlCommands|
        invariant executed == history + done
        invariant RunStatements(server, history, Commands(sqlCommands[..i])) == Outcome(true, done)
      {
        var accepted;
        accepted, done := RunSegment(server, sqlCommands, i, history, done);
        if !accepted {
          CommandRefused(server, history, sqlCommands, i + 1);
          return false;
        }
        i := i + 1;
      }
      assert sqlCommands[..i] == sqlCommands;
      return true;
    }

    /** One turn of the loop of `run_sql_file`: a non-blank segment is executed as it stands. */
    method RunSegment(server: Server, segments: seq<string>, i: nat, ghost history: seq<Statement>, ghost done: seq<Statement>)
      returns (accepted: bool, ghost doneNext: seq<Statement>)
      modifies this
      requires i < |segments| && executed == history + done
      requires RunStatements(server, history, Commands(segments[..i])) == Outcome(true, done)
      ensures executed == history + doneNext
      ensures RunStatements(server, history, Commands(segments[..i + 1])) == Outcome(accepted, doneNext)
    {
      var command := segments[i];
      CommandNext(server, history, segments, i, done);
      StripBlank(command);
      if Strip(command) == "" {
        accepted, doneNext := true, done;
      } else {
        accepted := server(executed, Execute(command));
        if accepted {
          AppendAssoc(history, done, [Execute(command)]);
          executed := executed + [Execute(command)];
          doneNext := done + [Execute(command)];
        } else {
          doneNext := done;
        }
      }
    }
  }

  // ---- The cursor ----

  /** Once a statement raises, running more statements after it changes nothing. */
  lemma {:induction false} RunStatementsStops(server: Server, history: seq<Statement>, xs: seq<Statement>, ys: seq<Statement>)
    requires !RunStatements(server, history, xs).ok
    ensures RunStatements(server, history, xs + ys) == RunStatements(server, history, xs)
    decreases |ys|
  {
    if ys == [] {
      assert xs + ys == xs;
    } else {
      var zs := ys[..|ys| - 1];
      assert (xs + ys)[..|xs + ys| - 1] == xs + zs;
      RunStatementsStops(server, history, xs, zs);
    }
  }

  /**
   * The statements that ran are a prefix of those given; all ran exactly when
   * the outcome is ok, and otherwise the next one was refused.
   */
  lemma {:induction false} RunStatementsPrefix(server: Server, history: seq<Statement>, statements: seq<Statement>)
    ensures var run := RunStatements(server, history, statements);
      |run.executed| <= |statements| && run.executed == statements[..|run.executed|]
    ensures var run := RunStatements(server, history, statements);
      run.ok <==> run.executed == statements
    ensures var run := RunStatements(server, history, statements);
      !run.ok ==> !server(history + run.executed, statements[|run.executed|])
  {
    if statements != [] {
      var init := statements[..|statements| - 1];
      RunStatementsPrefix(server, history, init);
      var before := RunStatements(server, history, init);
      assert init[..|before.executed|] == statements[..|before.executed|];
      if before.ok {
        assert before.executed == init;
        assert init + [Last(statements)] == statements;
      } else {
        assert statements[|before.executed|] == init[|before.executed|];
      }
    }
  }

  /** One more statement runs when all before it ran and the server accepts it. */
  lemma RunStatementsSnoc(server: Server, history: seq<Statement>, xs: seq<Statement>, statement: Statement)
    ensures var before := RunStatements(server, history, xs);
      RunStatements(server, history, xs + [statement]) ==
        if before.ok && server(history + before.executed, statement) then Outcome(true, before.executed + [statement])
        else Outcome(false, before.executed)
  {
    assert (xs + [statement])[..|xs|] == xs;
  }

  /** The server accepts statement `i` after the history and the statements before it. */
  predicate AcceptedInTurn(server: Server, history: seq<Statement>, statements: seq<Statement>, i: nat)
    requires i < |statements|
  {
    server(history + statements[..i], statements[i])
  }

  /** When the server accepts every statement in turn, all of them run. */
  lemma {:induction false} RunStatementsAll(server: Server, history: seq<Statement>, statements: seq<Statement>)
    requires forall i :: 0 <= i < |statements| ==> AcceptedInTurn(server, history, statements, i)
    ensures RunStatements(server, history, statements) == Outcome(true, statements)
  {
    if statements != [] {
      var n := |statements| - 1;
      var init := statements[..n];
      forall i | 0 <= i < |init|
        ensures AcceptedInTurn(server, history, init, i)
      {
        assert init[..i] == statements[..i] && init[i] == statements[i];
        assert AcceptedInTurn(server, history, statements, i);
      }
      RunStatementsAll(server, history, init);
      assert AcceptedInTurn(server, history, statements, n);
      assert init + [statements[n]] == statements;
    }
  }

  // ---- Import ----

  /** The inserts of consecutive runs of products follow one another. */
  lemma {:induction false} InsertsAppend(xs: seq<Record>, ys: seq<Record>)
    ensures Inserts(xs + ys) == Inserts(xs) + Inserts(ys)
    decreases |ys|
  {
    if ys == [] {
      assert xs + ys == xs;
    } else {
      var zs := ys[..|ys| - 1];
      assert (xs + ys)[..|xs + ys| - 1] == xs + zs;
      assert Last(xs + ys) == Last(ys);
      InsertsAppend(xs, zs);
      var tail := match ToRow(Last(ys)) case Some(row) => [Insert(row)] case None => [];
      AppendAssoc(Inserts(xs), Inserts(zs), tail);
    }
  }

  /** Products that all have their rows give one insert each, in order. */
  lemma {:induction false} InsertsAt(products: seq<Record>)
    requires forall i :: 0 <= i < |products| ==> ToRow(products[i]).Some?
    ensures |Inserts(products)| == |products|
    ensures forall i :: 0 <= i < |products| ==> Inserts(products)[i] == Insert(ToRow(products[i]).value)
  {
    if products != [] {
      var n := |products| - 1;
      var init := products[..n];
      forall i | 0 <= i < |init|
        ensures ToRow(init[i]).Some?
      {
        assert init[i] == products[i];
      }
      InsertsAt(init);
      var last := Insert(ToRow(products[n]).value);
      assert Inserts(products) == Inserts(init) + [last];
      forall i | 0 <= i < |products|
        ensures Inserts(products)[i] == Insert(ToRow(products[i]).value)
      {
        if i < n {
          assert init[i] == products[i];
          assert Inserts(products)[i] == Inserts(init)[i];
        }
      }
    }
  }

  /** The insert of product `i` runs after those of the products before it, if the server accepts it. */
  lemma ImportNext(server: Server, history: seq<Statement>, products: seq<Record>, i: nat, done: seq<Statement>)
    requires i < FirstMissing(products)
    requires RunStatements(server, history, Inserts(products[..i])) == Outcome(true, done)
    ensures var statement := Insert(ToRow(products[i]).value);
      RunStatements(server, history, Inserts(products[..i + 1])) ==
        if server(history + done, statement) then Outcome(true, done + [statement]) else Outcome(false, done)
  {
    InsertsNext(products, i);
    RunStatementsSnoc(server, history, Inserts(products[..i]), Insert(ToRow(products[i]).value));
  }

  /** One more product adds its insert, if it has a row. */
  lemma InsertsNext(products: seq<Record>, i: nat)
    requires i < |products|
    ensures ToRow(products[i]).None? ==> Inserts(products[..i + 1]) == Inserts(products[..i])
    ensures ToRow(products[i]).Some? ==>
      Inserts(products[..i + 1]) == Inserts(products[..i]) + [Insert(ToRow(products[i]).value)]
  {
    var prefix := products[..i + 1];
    assert prefix[..i] == products[..i] && Last(prefix) == products[i];
  }

  /** An insert refused before the first product lacking a field is where the import ends. */
  lemma ImportRefused(server: Server, history: seq<Statement>, products: seq<Record>, i: nat)
    requires i <= FirstMissing(products)
    requires !RunStatements(server, history, Inserts(products[..i])).ok
    ensures Import(server, history, products) == RunStatements(server, history, Inserts(products[..i]))
  {
    var n := FirstMissing(products);
    var xs, ys := products[..i], products[i..n];
    assert xs + ys == products[..n];
    InsertsAppend(xs, ys);
    RunStatementsStops(server, history, Inserts(xs), Inserts(ys));
  }

  /** Reaching the first product lacking a field, or the end, with every insert run ends the import. */
  lemma ImportEnds(server: Server, history: seq<Statement>, products: seq<Record>, i: nat, done: seq<Statement>)
    requires i <= FirstMissing(products)
    requires i == |products| || ToRow(products[i]).None?
    requires RunStatements(server, history, Inserts(products[..i])) == Outcome(true, done)
    ensures Import(server, history, products) == Outcome(i == |products|, done)
  {
  }

  /**
   * The rows inserted are those of the first products, in input order, one per
   * product; the import succeeds exactly when every product was inserted.
   */
  lemma ImportInserts(server: Server, history: seq<Statement>, products: seq<Record>)
    ensures var result := Import(server, history, products);
      |result.executed| <= |products| &&
      forall i :: 0 <= i < |result.executed| ==>
        ToRow(products[i]).Some? && result.executed[i] == Insert(ToRow(products[i]).value)
    ensures var result := Import(server, history, products);
      result.ok <==> |result.executed| == |products|
  {
    var n := FirstMissing(products);
    var prefix := products[..n];
    assert forall i :: 0 <= i < n ==> prefix[i] == products[i];
    InsertsAt(prefix);
    RunStatementsPrefix(server, history, Inserts(prefix));
  }

  /** A product lacking a required field ends the import with False, before its own insert. */
  lemma ImportMissingField(server: Server, history: seq<Statement>, products: seq<Record>, j: nat)
    requires j < |products| && !(Required <= products[j].Keys)
    ensures !Import(server, history, products).ok
    ensures |Import(server, history, products).executed| <= j
  {
    var n := FirstMissing(products);
    assert n <= j;
    ImportInserts(server, history, products);
    InsertsAt(products[..n]);
    RunStatementsPrefix(server, history, Inserts(products[..n]));
  }

  /** When every product has its required fields and the server accepts every insert, all of them are inserted. */
  lemma ImportAll(server: Server, history: seq<Statement>, products: seq<Record>)
    requires forall i :: 0 <= i < |products| ==> Required <= products[i].Keys
    requires forall h, row :: server(h, Insert(row))
    ensures Import(server, history, products) == Outcome(true, Inserts(products))
    ensures |Inserts(products)| == |products|
  {
    assert products[..FirstMissing(products)] == products;
    InsertsAt(products);
    var inserts := Inserts(products);
    forall i | 0 <= i < |inserts|
      ensures AcceptedInTurn(server, history, inserts, i)
    {
      assert inserts[i] == Insert(ToRow(products[i]).value);
    }
    RunStatementsAll(server, history, inserts);
  }

  // ---- Scripts ----

  /** The commands of consecutive runs of segments follow one another. */
  lemma {:induction false} CommandsAppend(xs: seq<string>, ys: seq<string>)
    ensures Commands(xs + ys) == Commands(xs) + Commands(ys)
    decreases |ys|
  {
    if ys == [] {
      assert xs + ys == xs;
    } else {
      var zs := ys[..|ys| - 1];
      assert (xs + ys)[..|xs + ys| - 1] == xs + zs;
      assert Last(xs + ys) == Last(ys);
      CommandsAppend(xs, zs);
      AppendAssoc(Commands(xs), Commands(zs), SegmentCommand(Last(ys)));
    }
  }

  /** Segment `i` runs after the commands before it unless it is blank or the server refuses it. */
  lemma CommandNext(server: Server, history: seq<Statement>, segments: seq<string>, i: nat, done: seq<Statement>)
    requires i < |segments|
    requires RunStatements(server, history, Commands(segments[..i])) == Outcome(true, done)
    ensures var statement := Execute(segments[i]);
      RunStatements(server, history, Commands(segments[..i + 1])) ==
        if Blank(segments[i]) then Outcome(true, done)
        else if server(history + done, statement) then Outcome(true, done + [statement])
        else Outcome(false, done)
  {
    CommandsNext(segments, i);
    if Blank(segments[i]) {
      assert Commands(segments[..i]) + [] == Commands(segments[..i]);
    } else {
      RunStatementsSnoc(server, history, Commands(segments[..i]), Execute(segments[i]));
    }
  }

  /** One more segment adds its command, if it is not blank. */
  lemma CommandsNext(segments: seq<string>, i: nat)
    requires i < |segments|
    ensures Commands(segments[..i + 1]) == Commands(segments[..i]) + SegmentCommand(segments[i])
  {
    var prefix := segments[..i + 1];
    assert prefix[..i] == segments[..i] && Last(prefix) == segments[i];
  }

  /** A command refused at a segment is where the script ends. */
  lemma CommandRefused(server: Server, history: seq<Statement>, segments: seq<string>, i: nat)
    requires i <= |segments|
    requires !RunStatements(server, history, Commands(segments[..i])).ok
    ensures RunStatements(server, history, Commands(segments)) == RunStatements(server, history, Commands(segments[..i]))
  {
    var xs, ys := segments[..i], segments[i..];
    assert xs + ys == segments;
    CommandsAppend(xs, ys);
    RunStatementsStops(server, history, Commands(xs), Commands(ys));
  }

  /** Every command is one of the segments, run as it stands, and is not blank. */
  lemma {:induction false} CommandsAreSegments(segments: seq<string>)
    ensures forall s :: s in Commands(segments) ==>
      s.Execute? && s.command in segments && !Blank(s.command)
  {
    if segments != [] {
      var init := segments[..|segments| - 1];
      CommandsAreSegments(init);
      assert forall c :: c in init ==> c in segments;
    }
  }

  /** A blank segment is dropped and a non-blank one kept, unstripped. */
  lemma CommandsOfSegment(segment: string)
    ensures Strip(segment) == "" ==> Commands([segment]) == []
    ensures Strip(segment) != "" ==> Commands([segment]) == [Execute(segment)]
  {
    StripBlank(segment);
    assert [segment][..0] == [];
  }
}
