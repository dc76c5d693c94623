/**
 * The ledger reader of grid-accounting/main.go: account strings
 * `party:category[:label]`, the debit and credit rules that post an entry
 * to a party's balance sheet, the classification of ledger lines, and the
 * rendering of a markdown table row.
 *
 * Amounts are reals (the Go code uses `float64`). A balance sheet is an
 * object whose three maps are updated in place; `Sheet` is its value.
 */
module Accounting {
  import opened Wrappers
  import GoStrings

  /** `Account`. */
  datatype Account = Account(party: string, category: string, accountLabel: string)

  /** `Entry`: one posting of a ledger. */
  datatype Entry = Entry(date: string, account: Account, dc: string, amount: real, commodity: string)

  /** `parseAccount`: two or three `':'`-separated parts; the label is everything after the party. */
  function ParseAccount(s: string): (r: Result<Account>)
    ensures r.Ok? <==> 2 <= |GoStrings.Split(s, ':')| <= 3
    ensures r.Err? ==> r.error == "invalid account format: " + s
  {
    var parts := GoStrings.Split(s, ':');
    if |parts| < 2 || |parts| > 3 then Err("invalid account format: " + s)
    else Ok(Account(parts[0], parts[1], GoStrings.Join(parts[1..], ":")))
  }

  /** An account string parses exactly when it has one or two colons. */
  lemma ParseAccountColons(s: string)
    ensures ParseAccount(s).Ok? <==> 1 <= multiset(s)[':'] <= 2
  {
    GoStrings.SplitCount(s, ':');
  }

  /**
   * A parsed account gives the string back as party, `':'` and label; the
   * party has no `':'` and the label starts with the category.
   */
  lemma ParseAccountRoundTrip(s: string)
    requires ParseAccount(s).Ok?
    ensures var a := ParseAccount(s).value;
      && s == a.party + ":" + a.accountLabel
      && ':' !in a.party && ':' !in a.category
      && GoStrings.HasPrefix(a.accountLabel, a.category)
  {
    var parts := GoStrings.Split(s, ':');
    GoStrings.JoinSplit(s, ':');
    assert parts == [parts[0]] + parts[1..];
    assert GoStrings.Join(parts, ":") == parts[0] + ":" + GoStrings.Join(parts[1..], ":");
    var tail := parts[1..];
    if |tail| == 2 {
      assert GoStrings.Join(tail, ":") == tail[0] + ":" + tail[1];
      assert (tail[0] + ":" + tail[1])[..|tail[0]|] == tail[0];
    }
  }

  /** A party and a category without `':'` parse back to themselves, the category being the label. */
  lemma ParseAccountOf(party: string, category: string)
    requires ':' !in party && ':' !in category
    ensures ParseAccount(party + ":" + category) == Ok(Account(party, category, category))
  {
    GoStrings.SplitCons(party, category, ':');
    GoStrings.SplitNone(category, ':');
    assert party + ":" + category == party + [':'] + category;
  }

  /** A party, a category and a sub-label without `':'` parse back to themselves. */
  lemma ParseAccountOfLabel(party: string, category: string, sub: string)
    requires ':' !in party && ':' !in category && ':' !in sub
    ensures ParseAccount(party + ":" + category + ":" + sub) == Ok(Account(party, category, category + ":" + sub))
  {
    var rest := category + [':'] + sub;
    assert party + ":" + category + ":" + sub == party + [':'] + rest;
    GoStrings.SplitCons(category, sub, ':');
    GoStrings.SplitNone(sub, ':');
    GoStrings.SplitCons(party, rest, ':');
    assert GoStrings.Split(party + ":" + category + ":" + sub, ':') == [party, category, sub];
    assert GoStrings.Join([category, sub], ":") == category + ":" + sub;
  }

  /** The value of a balance sheet: the amount held in each commodity under each of the three categories. */
  datatype Sheet = Sheet(asset: map<string, real>, liability: map<string, real>, equity: map<string, real>)

  const EmptySheet := Sheet(map[], map[], map[])

  /** A Go map read: a missing key reads as zero. */
  function Get(m: map<string, real>, k: string): real
  {
    if k in m then m[k] else 0.0
  }

  /** `m[k] += d` in Go: the key is added when missing. */
  function Add(m: map<string, real>, k: string, d: real): (r: map<string, real>)
    ensures r.Keys == m.Keys + {k} && Get(r, k) == Get(m, k) + d
    ensures forall j :: j in m && j != k ==> r[j] == m[j]
  {
    m[k := Get(m, k) + d]
  }

  /** The three categories of a balance sheet, and any other category string. */
  datatype Category = AssetCategory | LiabilityCategory | EquityCategory | OtherCategory

  function CategoryOf(category: string): Category
  {
    if category == "Asset" then AssetCategory
    else if category == "Liability" then LiabilityCategory
    else if category == "Equity" then EquityCategory
    else OtherCategory
  }

  /** Debit ("D"), credit ("C"), or any other `dc` string. */
  datatype Side = Debit | Credit | OtherSide

  function SideOf(dc: string): Side
  {
    if dc == "D" then Debit else if dc == "C" then Credit else OtherSide
  }

  /** The sheet after posting `amount` of commodity `c` on `side` of `category`, by the rules of `updateBalanceSheet`. */
  function Post(s: Sheet, category: Category, side: Side, c: string, amount: real): Sheet
  {
    match (category, side)
    case (AssetCategory, Debit) => s.(asset := Add(s.asset, c, amount))
    case (AssetCategory, Credit) => s.(asset := Add(s.asset, c, -amount))
    case (LiabilityCategory, Debit) => s.(liability := Add(s.liability, c, -amount))
    case (LiabilityCategory, Credit) => s.(liability := Add(s.liability, c, amount))
    case (EquityCategory, Debit) => s.(equity := Add(s.equity, c, -amount))
    case (EquityCategory, Credit) => s.(equity := Add(s.equity, c, amount))
    case _ => s
  }

  /** The sheet after posting entry `e`. */
  function Posted(s: Sheet, e: Entry): Sheet
  {
    Post(s, CategoryOf(e.account.category), SideOf(e.dc), e.commodity, e.amount)
  }

  /** Double-entry signs: a debit increases assets and decreases liabilities and equity, a credit the reverse. */
  function Sign(category: Category, side: Side): int
  {
    if category == OtherCategory || side == OtherSide then 0
    else if (category == AssetCategory) == (side == Debit) then 1
    else -1
  }

  /** The map of a sheet for a category (none for other categories). */
  function Column(s: Sheet, category: Category): map<string, real>
  {
    match category
    case AssetCategory => s.asset
    case LiabilityCategory => s.liability
    case EquityCategory => s.equity
    case OtherCategory => map[]
  }

  /**
   * Posting changes only the amount of the commodity under the category,
   * by the signed amount; an unknown category or side leaves the sheet as
   * it was.
   */
  lemma PostingRules(s: Sheet, category: Category, side: Side, c: string, amount: real)
    ensures var t := Post(s, category, side, c, amount);
      && (Sign(category, side) == 0 ==> t == s)
      && (Sign(category, side) != 0 ==>
            && Get(Column(t, category), c) == Get(Column(s, category), c) + (if Sign(category, side) > 0 then amount else -amount)
            && Column(t, category).Keys == Column(s, category).Keys + {c}
            && (forall j :: j in Column(s, category) && j != c ==> Column(t, category)[j] == Column(s, category)[j])
            && (forall other :: other != category ==> Column(t, other) == Column(s, other)))
  {
  }

  /** The other side of a posting. */
  function Opposite(side: Side): Side
  {
    match side
    case Debit => Credit
    case Credit => Debit
    case OtherSide => OtherSide
  }

  /** Posting an amount and then the same amount on the other side restores every amount: a credit undoes a debit. */
  lemma OppositeCancels(s: Sheet, category: Category, side: Side, c: string, amount: real, cat: Category, j: string)
    ensures Get(Column(Post(Post(s, category, side, c, amount), category, Opposite(side), c, amount), cat), j) == Get(Column(s, cat), j)
  {
    PostingRules(s, category, side, c, amount);
    PostingRules(Post(s, category, side, c, amount), category, Opposite(side), c, amount);
  }

  /** `BalanceSheet`. */
  class BalanceSheet {
    var asset: map<string, real>
    var liability: map<string, real>
    var equity: map<string, real>

    /** `NewBalanceSheet`: three empty maps. */
    constructor ()
      ensures Value() == EmptySheet
    {
      asset, liability, equity := map[], map[], map[];
    }

    function Value(): Sheet
      reads this
    {
      Sheet(asset, liability, equity)
    }
  }

  /** `updateBalanceSheet`: posts the entry in place. */
  method UpdateBalanceSheet(bs: BalanceSheet, entry: Entry)
    modifies bs
    ensures bs.Value() == Posted(old(bs.Value()), entry)
  {
    var c := entry.commodity;
    match entry.account.category
    case "Asset" =>
      if entry.dc == "D" {
        bs.asset := bs.asset[c := Get(bs.asset, c) + entry.amount];
      } else if entry.dc == "C" {
        bs.asset := bs.asset[c := Get(bs.asset, c) - entry.amount];
      }
    case "Liability" =>
      if entry.dc == "D" {
        bs.liability := bs.liability[c := Get(bs.liability, c) - entry.amount];
      } else if entry.dc == "C" {
        bs.liability := bs.liability[c := Get(bs.liability, c) + entry.amount];
      }
    case "Equity" =>
      if entry.dc == "D" {
        bs.equity := bs.equity[c := Get(bs.equity, c) - entry.amount];
      } else if entry.dc == "C" {
        bs.equity := bs.equity[c := Get(bs.equity, c) + entry.amount];
      }
    case _ =>
  }

  /** What `parseLedger` makes of one line. */
  datatype LineKind =
    | Skipped
    | Dated(date: string)
    | Short
    | Posting(account: string, dc: string, amount: string, commodity: string)

  /** The rules of the loop of `parseLedger`, in the order it applies them. */
  function Classify(line: string): LineKind
  {
    if GoStrings.TrimSpace(line) == "" || GoStrings.HasPrefix(line, ";") || GoStrings.HasPrefix(line, "#") then Skipped
    else if '*' in line then Dated(GoStrings.FirstSpaceField(GoStrings.TrimSpace(line)))
    else
      var fs := GoStrings.Fields(line);
      if |fs| < 4 then Short else Posting(fs[0], fs[1], fs[2], fs[3])
  }

  /**
   * Blank lines and lines starting with `';'` or `'#'` are skipped; any
   * other line with a `'*'` is a date line, whose date is the trimmed
   * line up to its first space; any other line with fewer than four
   * fields is ignored; the rest are postings of their first four fields.
   */
  lemma ClassifyRules(line: string)
    ensures var k := Classify(line);
      && ((GoStrings.Blank(line) || GoStrings.HasPrefix(line, ";") || GoStrings.HasPrefix(line, "#")) <==> k.Skipped?)
      && (k.Dated? <==> !k.Skipped? && '*' in line)
      && (k.Dated? ==>
            && ' ' !in k.date && GoStrings.HasPrefix(GoStrings.TrimSpace(line), k.date)
            && (|k.date| < |GoStrings.TrimSpace(line)| ==> GoStrings.TrimSpace(line)[|k.date|] == ' '))
      && (k.Short? <==> !k.Skipped? && '*' !in line && |GoStrings.Fields(line)| < 4)
      && (k.Posting? ==> var fs := GoStrings.Fields(line); |fs| >= 4 && k == Posting(fs[0], fs[1], fs[2], fs[3]))
  {
    GoStrings.TrimSpaceSpace(line);
  }

  /** A floating-point parser in the manner of `strconv.ParseFloat`, with its error text. */
  type FloatParser = string -> Result<real>

  /**
   * The sheets `parseLedger` ends with when it reads `lines`, having read
   * earlier lines into `sheets` with `date` current, or its error.
   */
  function Ledger(lines: seq<string>, parse: FloatParser, date: string, sheets: map<string, Sheet>): Result<map<string, Sheet>>
  {
    if lines == [] then Ok(sheets)
    else match Classify(lines[0])
      case Skipped => Ledger(lines[1..], parse, date, sheets)
      case Dated(d) => Ledger(lines[1..], parse, d, sheets)
      case Short => Ledger(lines[1..], parse, date, sheets)
      case Posting(acct, dc, amount, commodity) =>
        match parse(amount)
        case Err(e) => Err("error parsing amount: " + e)
        case Ok(x) =>
          match ParseAccount(acct)
          case Err(e) => Err("error parsing account: " + e)
          case Ok(account) =>
            Ledger(lines[1..], parse, date, sheets[account.party := Posted(SheetOf(sheets, account.party), Entry(date, account, dc, x, commodity))])
  }

  /** The values of a map of balance sheets. */
  function Snapshot(m: map<string, BalanceSheet>): map<string, Sheet>
    reads m.Values
  {
    map p | p in m :: m[p].Value()
  }

  /** Distinct parties have distinct sheets. */
  predicate Separate(m: map<string, BalanceSheet>)
  {
    forall p, q :: p in m && q in m && p != q ==> m[p] != m[q]
  }

  /** The sheet a party's next entry is posted to: its own, or an empty one for a party not seen before. */
  function SheetOf(sheets: map<string, Sheet>, party: string): Sheet
  {
    if party in sheets then sheets[party] else EmptySheet
  }

  /** The end of the loop body of `parseLedger`: makes a sheet for a new party, then posts the entry to the party's sheet. */
  method PostToParty(entries: map<string, BalanceSheet>, party: string, entry: Entry) returns (after: map<string, BalanceSheet>)
    requires Separate(entries)
    modifies entries.Values
    ensures Separate(after) && after.Keys == entries.Keys + {party}
    ensures forall p :: p in entries ==> after[p] == entries[p]
    ensures party !in entries ==> fresh(after[party])
    ensures Snapshot(after) == old(Snapshot(entries))[party := Posted(SheetOf(old(Snapshot(entries)), party), entry)]
  {
    ghost var before := Snapshot(entries);
    after := entries;
    if party !in after {
      var sheet := new BalanceSheet();
      after := after[party := sheet];
    }
    ghost var was := after[party].Value();
    assert was == SheetOf(before, party);
    UpdateBalanceSheet(after[party], entry);
    forall q | q in after ensures after[q].Value() == before[party := Posted(was, entry)][q] {
      if q != party {
        assert after[q] != after[party];
      }
    }
    assert Snapshot(after) == before[party := Posted(was, entry)];
  }

  /**
   * `parseLedger` over the lines of the file: one fresh balance sheet per
   * party, each holding the postings of that party's entries, or the error
   * of the first posting line whose amount or account does not parse.
   */
  method ParseLedger(lines: seq<string>, parse: FloatParser) returns (r: Result<map<string, BalanceSheet>>)
    ensures r.Ok? <==> Ledger(lines, parse, "", map[]).Ok?
    ensures r.Err? ==> r.error == Ledger(lines, parse, "", map[]).error
    ensures r.Ok? ==> Separate(r.value) && forall p :: p in r.value ==> fresh(r.value[p])
    ensures r.Ok? ==> Snapshot(r.value) == Ledger(lines, parse, "", map[]).value
  {
    var entries: map<string, BalanceSheet> := map[];
    var currentDate := "";
    for i := 0 to |lines|
      invariant Separate(entries) && forall p :: p in entries ==> fresh(entries[p])
      invariant Ledger(lines, parse, "", map[]) == Ledger(lines[i..], parse, currentDate, Snapshot(entries))
    {
      var line := lines[i];
      assert lines[i..][1..] == lines[i + 1..];
      var kind := Classify(line);
      if kind.Skipped? || kind.Short? {
        continue;
      }
      if kind.Dated? {
        currentDate := kind.date;
        continue;
      }
      var amount := parse(kind.amount);
      if amount.Err? {
        return Err("error parsing amount: " + amount.error);
      }
      var account := ParseAccount(kind.account);
      if account.Err? {
        return Err("error parsing account: " + account.error);
      }
      var entry := Entry(currentDate, account.value, kind.dc, amount.value, kind.commodity);
      entries := PostToParty(entries, account.value.party, entry);
    }
    assert lines[|lines|..] == [];
    return Ok(entries);
  }

  /** Lines that are blank, comments or too short post nothing; a date line only changes the current date. */
  lemma LedgerSkips(line: string, rest: seq<string>, parse: FloatParser, date: string, sheets: map<string, Sheet>)
    requires !Classify(line).Posting?
    ensures Ledger([line] + rest, parse, date, sheets) ==
      Ledger(rest, parse, if Classify(line).Dated? then Classify(line).date else date, sheets)
  {
    assert ([line] + rest)[1..] == rest;
  }

  /** `line` is a posting line whose account is one of party `p`. */
  predicate PostsFor(line: string, p: string)
  {
    Classify(line).Posting? && ParseAccount(Classify(line).account).Ok? && ParseAccount(Classify(line).account).value.party == p
  }

  /** Every party with a sheet is the party of an account that was posted, and posting never drops a sheet. */
  lemma {:induction false} LedgerParties(lines: seq<string>, parse: FloatParser, date: string, sheets: map<string, Sheet>)
    requires Ledger(lines, parse, date, sheets).Ok?
    ensures sheets.Keys <= Ledger(lines, parse, date, sheets).value.Keys
    ensures forall p :: p in Ledger(lines, parse, date, sheets).value && p !in sheets ==>
      exists i :: 0 <= i < |lines| && PostsFor(lines[i], p)
    decreases |lines|
  {
    if lines != [] {
      var rest := lines[1..];
      var r := Ledger(lines, parse, date, sheets);
      match Classify(lines[0])
      case Skipped => LedgerParties(rest, parse, date, sheets);
      case Dated(d) => LedgerParties(rest, parse, d, sheets);
      case Short => LedgerParties(rest, parse, date, sheets);
      case Posting(acct, dc, amount, commodity) =>
        var x := parse(amount).value;
        var account := ParseAccount(acct).value;
        var next := sheets[account.party := Posted(SheetOf(sheets, account.party), Entry(date, account, dc, x, commodity))];
        LedgerParties(rest, parse, date, next);
        forall p | p in r.value && p !in sheets
          ensures exists i :: 0 <= i < |lines| && PostsFor(lines[i], p)
        {
          if p == account.party {
            assert PostsFor(lines[0], p);
          } else {
            var i :| 0 <= i < |rest| && PostsFor(rest[i], p);
            assert rest[i] == lines[i + 1];
          }
        }
    }
  }

  /** `Row`: the cells of a markdown table row. */
  datatype Row = Row(cells: seq<string>)

  /** A cell right-padded with spaces to `width`; a longer cell is kept whole. */
  function Pad(cell: string, width: int): string
  {
    cell + GoStrings.Repeat(' ', if width - |cell| > 0 then width - |cell| else 0)
  }

  /** A padded cell is the cell followed by spaces, as long as the wider of the cell and the column. */
  lemma PadShape(cell: string, width: int)
    ensures var p := Pad(cell, width);
      && GoStrings.HasPrefix(p, cell)
      && |p| == (if |cell| < width then width else |cell|)
      && forall i :: |cell| <= i < |p| ==> p[i] == ' '
  {
    assert Pad(cell, width)[..|cell|] == cell;
  }

  /** The padded cells of a row. */
  function Padded(cells: seq<string>, width: int): (ps: seq<string>)
    ensures |ps| == |cells| && forall i :: 0 <= i < |cells| ==> ps[i] == Pad(cells[i], width)
  {
    seq(|cells|, i requires 0 <= i < |cells| => Pad(cells[i], width))
  }

  /** The text of a rendered row. */
  function Rendered(cells: seq<string>, width: int): string
  {
    "| " + GoStrings.Join(Padded(cells, width), " | ") + " |"
  }

  /** `Row.Render`. */
  method Render(row: Row, columnWidth: int) returns (s: string)
    ensures s == Rendered(row.cells, columnWidth)
  {
    var cells: seq<string> := [];
    for i := 0 to |row.cells|
      invariant cells == Padded(row.cells[..i], columnWidth)
    {
      var cell := row.cells[i];
      var spaces := columnWidth - |cell|;
      spaces := if 0 > spaces then 0 else spaces;
      cells := cells + [cell + GoStrings.Repeat(' ', spaces)];
    }
    assert row.cells[..|row.cells|] == row.cells;
    return "| " + GoStrings.Join(cells, " | ") + " |";
  }

  /** Each cell between a space on either side, as a column of the row appears between two `'|'`. */
  function Framed(ps: seq<string>): (fs: seq<string>)
    ensures |fs| == |ps| && forall i :: 0 <= i < |ps| ==> fs[i] == " " + ps[i] + " "
  {
    seq(|ps|, i requires 0 <= i < |ps| => " " + ps[i] + " ")
  }

  /** The columns of the text after the leading `'|'`, one per padded cell. */
  lemma {:induction false} ColumnsSplit(ps: seq<string>)
    requires ps != [] && forall i :: 0 <= i < |ps| ==> '|' !in ps[i]
    ensures GoStrings.Split(" " + GoStrings.Join(ps, " | ") + " |", '|') == Framed(ps) + [""]
    decreases |ps|
  {
    var col := " " + ps[0] + " ";
    assert '|' !in col;
    if |ps| == 1 {
      assert " " + GoStrings.Join(ps, " | ") + " |" == col + ['|'] + "";
      GoStrings.SplitCons(col, "", '|');
      GoStrings.SplitNone("", '|');
    } else {
      var rest := ps[1..];
      var tail := " " + GoStrings.Join(rest, " | ") + " |";
      assert " " + GoStrings.Join(ps, " | ") + " |" == col + ['|'] + tail;
      GoStrings.SplitCons(col, tail, '|');
      ColumnsSplit(rest);
      assert Framed(ps) == [col] + Framed(rest);
    }
  }

  /** Padding adds only spaces, so a cell without `'|'` stays without one. */
  lemma PadNoBar(cell: string, width: int)
    requires '|' !in cell
    ensures '|' !in Pad(cell, width)
  {
    var p := Pad(cell, width);
    forall i | 0 <= i < |p| ensures p[i] != '|' {
      if i >= |cell| {
        assert p[i] == ' ';
      } else {
        assert p[i] == cell[i];
      }
    }
  }

  lemma PaddedNoBar(cells: seq<string>, width: int)
    requires forall i :: 0 <= i < |cells| ==> '|' !in cells[i]
    ensures forall i :: 0 <= i < |cells| ==> '|' !in Padded(cells, width)[i]
  {
    forall i | 0 <= i < |cells| ensures '|' !in Padded(cells, width)[i] {
      PadNoBar(cells[i], width);
    }
  }

  /**
   * A rendered row of cells without `'|'` splits on `'|'` into an empty
   * part, one column per cell holding the padded cell between two spaces,
   * and an empty part: the row has exactly the row's columns.
   */
  lemma RenderedColumns(cells: seq<string>, width: int)
    requires cells != [] && forall i :: 0 <= i < |cells| ==> '|' !in cells[i]
    ensures GoStrings.Split(Rendered(cells, width), '|') == [""] + Framed(Padded(cells, width)) + [""]
  {
    var ps := Padded(cells, width);
    PaddedNoBar(cells, width);
    var tail := " " + GoStrings.Join(ps, " | ") + " |";
    assert Rendered(cells, width) == [] + ['|'] + tail;
    GoStrings.SplitCons([], tail, '|');
    ColumnsSplit(ps);
  }

  /** `maxItems`: the largest of three counts. */
  function MaxItems(a: int, b: int, c: int): (r: int)
    ensures r >= a && r >= b && r >= c
    ensures r == a || r == b || r == c
  {
    if a > b then (if a > c then a else c)
    else if b > c then b else c
  }
}
