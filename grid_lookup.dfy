/**
 * The two line lookups of the grid command (grid-cli/grid/main.go): the
 * hash of a subcommand in a symbol table, whose lines are "name hash", and
 * the symbol-table hash in the configuration, whose line is
 * "symbol_table_hash=hash". Both split the text on newlines and take the
 * rest of the first line that starts with a key.
 */
module GridLookup {
  import opened Wrappers
  import GoStrings

  /** The rest of the first of `lines` that starts with `prefix`, or `None` when none does. */
  function ValueAfter(lines: seq<string>, prefix: string): Option<string>
  {
    if lines == [] then None
    else if GoStrings.HasPrefix(lines[0], prefix) then Some(lines[0][|prefix|..])
    else ValueAfter(lines[1..], prefix)
  }

  /** Line `i` is the first of `lines` to start with `prefix`. */
  predicate FirstWith(lines: seq<string>, prefix: string, i: int)
  {
    && 0 <= i < |lines|
    && GoStrings.HasPrefix(lines[i], prefix)
    && forall j :: 0 <= j < i ==> !GoStrings.HasPrefix(lines[j], prefix)
  }

  /**
   * A value is found exactly when some line starts with the prefix; it is
   * then what follows the prefix on the first such line.
   */
  lemma {:induction false} ValueAfterFirst(lines: seq<string>, prefix: string)
    ensures ValueAfter(lines, prefix).None? <==> forall j :: 0 <= j < |lines| ==> !GoStrings.HasPrefix(lines[j], prefix)
    ensures forall i :: FirstWith(lines, prefix, i) ==>
      ValueAfter(lines, prefix) == Some(lines[i][|prefix|..]) && lines[i] == prefix + lines[i][|prefix|..]
  {
    if lines != [] {
      ValueAfterFirst(lines[1..], prefix);
      forall i | FirstWith(lines, prefix, i) && i > 0 ensures FirstWith(lines[1..], prefix, i - 1) {
        assert forall j :: 0 <= j < i - 1 ==> lines[1..][j] == lines[j + 1];
      }
      if ValueAfter(lines[1..], prefix).Some? && !GoStrings.HasPrefix(lines[0], prefix) {
        var j :| 0 <= j < |lines| - 1 && GoStrings.HasPrefix(lines[1..][j], prefix);
        assert GoStrings.HasPrefix(lines[j + 1], prefix);
      }
    }
  }

  /** Earlier lines win: a match in the first block hides any in the second. */
  lemma {:induction false} ValueAfterAppend(a: seq<string>, b: seq<string>, prefix: string)
    ensures ValueAfter(a + b, prefix) == if ValueAfter(a, prefix).Some? then ValueAfter(a, prefix) else ValueAfter(b, prefix)
  {
    if a != [] {
      assert (a + b)[1..] == a[1..] + b;
      ValueAfterAppend(a[1..], b, prefix);
    } else {
      assert a + b == b;
    }
  }

  /** A line `prefix + value` placed first in the text is found, whatever follows it. */
  lemma WrittenLineFound(prefix: string, value: string, rest: string)
    requires '\n' !in prefix + value
    ensures ValueAfter(GoStrings.Split(prefix + value + "\n" + rest, '\n'), prefix) == Some(value)
  {
    GoStrings.SplitCons(prefix + value, rest, '\n');
    assert (prefix + value)[..|prefix|] == prefix;
    assert (prefix + value)[|prefix|..] == value;
  }

  /** The key of a subcommand's line: its name and one space. */
  function SubcommandKey(subcommand: string): string
  {
    subcommand + " "
  }

  /** A line that starts with the key starts with the name and is longer than it. */
  lemma KeyLonger(line: string, subcommand: string)
    ensures GoStrings.HasPrefix(line, SubcommandKey(subcommand)) ==> GoStrings.HasPrefix(line, subcommand) && line != subcommand
  {
    if GoStrings.HasPrefix(line, SubcommandKey(subcommand)) {
      assert line[..|subcommand|] == SubcommandKey(subcommand)[..|subcommand|];
    }
  }

  /** A line holding only the subcommand's name, with no space after it, never matches. */
  lemma {:induction false} BareNameNotMatched(lines: seq<string>, subcommand: string)
    requires forall j :: 0 <= j < |lines| && GoStrings.HasPrefix(lines[j], subcommand) ==> lines[j] == subcommand
    ensures ValueAfter(lines, SubcommandKey(subcommand)) == None
  {
    if lines != [] {
      KeyLonger(lines[0], subcommand);
      assert forall j :: 0 <= j < |lines| - 1 ==> lines[1..][j] == lines[j + 1];
      BareNameNotMatched(lines[1..], subcommand);
    }
  }

  /**
   * `getSubcommandHash`: the hash on the first line of the symbol table
   * that starts with the subcommand and a space. When there is none the
   * program prints "Subcommand <name> not found in symbol table." and exits,
   * which here is the error carrying that message.
   */
  method SubcommandHash(symbolTable: string, subcommand: string) returns (r: Result<string>)
    ensures r.Ok? <==> ValueAfter(GoStrings.Split(symbolTable, '\n'), SubcommandKey(subcommand)).Some?
    ensures r.Ok? ==> Some(r.value) == ValueAfter(GoStrings.Split(symbolTable, '\n'), SubcommandKey(subcommand))
    ensures r.Err? ==> r.error == "Subcommand " + subcommand + " not found in symbol table."
  {
    var lines := GoStrings.Split(symbolTable, '\n');
    for i := 0 to |lines|
      invariant ValueAfter(lines, SubcommandKey(subcommand)) == ValueAfter(lines[i..], SubcommandKey(subcommand))
    {
      assert lines[i..][1..] == lines[i + 1..];
      if GoStrings.HasPrefix(lines[i], subcommand + " ") {
        return Ok(GoStrings.TrimPrefix(lines[i], subcommand + " "));
      }
    }
    return Err("Subcommand " + subcommand + " not found in symbol table.");
  }

  const SymbolTableKey := "symbol_table_hash="

  /**
   * `Sys.getSymbolTableHash`, given the outcome of reading the
   * configuration file: a failed read is reported as "Failed to read
   * configuration: " and the cause; otherwise the text after
   * "symbol_table_hash=" on the first line that starts with it, verbatim,
   * or the error "Symbol table hash not found in configuration."
   */
  method SymbolTableHash(config: Result<string>) returns (r: Result<string>)
    ensures config.Err? ==> r == Err("Failed to read configuration: " + config.error)
    ensures config.Ok? ==> var found := ValueAfter(GoStrings.Split(config.value, '\n'), SymbolTableKey);
      r == if found.Some? then Ok(found.value) else Err("Symbol table hash not found in configuration.")
  {
    if config.Err? {
      return Err("Failed to read configuration: " + config.error);
    }
    var lines := GoStrings.Split(config.value, '\n');
    for i := 0 to |lines|
      invariant ValueAfter(lines, SymbolTableKey) == ValueAfter(lines[i..], SymbolTableKey)
    {
      assert lines[i..][1..] == lines[i + 1..];
      if GoStrings.HasPrefix(lines[i], "symbol_table_hash=") {
        return Ok(GoStrings.TrimPrefix(lines[i], "symbol_table_hash="));
      }
    }
    return Err("Symbol table hash not found in configuration.");
  }
}
