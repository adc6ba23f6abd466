/**
 * The Movimientos page: its role gate, the editable table of lines in the
 * session, the three catalog selections, the checks behind the Enviar button,
 * the attachment of one uploaded file per line, the save, and the file name
 * offered for download when a saved movement is consulted.
 */
module Movimientos {
  import opened Wrappers
  import opened Text
  import opened Timestamps
  import opened Records
  import GeDb
  import Auth

  /** The first option of every catalog selection. */
  const Seleccione: string := "Seleccione"
  /** What `safe_filename` returns when nothing of the name survives. */
  const FallbackName: string := "archivo"
  /** `os.path.join("data", "uploads")`: the directory stored uploads go to. */
  const UploadDir: string := "data/uploads"

  // ---------------------------------------------------------------------
  // Role gate

  /** The page opens for ADMIN, ASISTENTE and SOCIO only; a user without a role reads as CONSULTA. */
  function PageOpens(u: Auth.User): (open: bool)
    ensures open <==> Auth.Rol(u) in {Some(Auth.Admin), Some("ASISTENTE"), Some("SOCIO")}
    ensures open == Auth.RequireRoles(Value(u), Auth.MovimientosRoles)
    ensures "rol" !in u ==> !open
  {
    match Auth.Rol(u)
    case Some(r) => r in [Auth.Admin, "ASISTENTE", "SOCIO"]
    case None => false
  }

  // ---------------------------------------------------------------------
  // safe_filename

  /** The characters `safe_filename` keeps: ASCII letters, digits, '.', '_' and '-'. */
  predicate IsNameChar(c: char)
  {
    ('A' <= c <= 'Z') || ('a' <= c <= 'z') || ('0' <= c <= '9') || c == '.' || c == '_' || c == '-'
  }

  predicate AllNameChars(s: string)
  {
    forall i :: 0 <= i < |s| ==> IsNameChar(s[i])
  }

  /** A character that leaves a trace in the cleaned name: a kept one, or a blank that becomes '_'. */
  predicate Survives(c: char)
  {
    IsNameChar(c) || c == ' '
  }

  /** `replace(" ", "_")`. */
  function SpacesToUnderscores(s: string): (r: string)
    ensures |r| == |s|
    ensures forall i :: 0 <= i < |s| ==> r[i] == if s[i] == ' ' then '_' else s[i]
  {
    if s == [] then [] else [if s[0] == ' ' then '_' else s[0]] + SpacesToUnderscores(s[1..])
  }

  /** Each blank becomes one '_'; every other character is counted as before. */
  lemma {:induction false} SpacesToUnderscoresCounts(s: string)
    ensures forall c :: c != ' ' && c != '_' ==> multiset(SpacesToUnderscores(s))[c] == multiset(s)[c]
    ensures multiset(SpacesToUnderscores(s))['_'] == multiset(s)['_'] + multiset(s)[' ']
  {
    if s != [] {
      var t := s[1..];
      var h := if s[0] == ' ' then '_' else s[0];
      SpacesToUnderscoresCounts(t);
      assert s == [s[0]] + t;
      assert multiset(s) == multiset{s[0]} + multiset(t);
      assert multiset(SpacesToUnderscores(s)) == multiset{h} + multiset(SpacesToUnderscores(t));
    }
  }

  /** `re.sub(r"[^A-Za-z0-9._-]", "", s)`: drops every character outside the allowed set. */
  function KeepNameChars(s: string): (r: string)
    ensures AllNameChars(r) && |r| <= |s|
    ensures |s| == 1 ==> (r == s <==> IsNameChar(s[0])) && (r == [] <==> !IsNameChar(s[0]))
  {
    if s == [] then [] else (if IsNameChar(s[0]) then [s[0]] else []) + KeepNameChars(s[1..])
  }

  /** Filtering keeps the order: the kept characters of `a + b` are those of `a`, then those of `b`. */
  lemma {:induction false} KeepNameCharsAppend(a: string, b: string)
    ensures KeepNameChars(a + b) == KeepNameChars(a) + KeepNameChars(b)
  {
    if a == [] {
      assert a + b == b;
    } else {
      var h := if IsNameChar(a[0]) then [a[0]] else [];
      assert (a + b)[0] == a[0] && (a + b)[1..] == a[1..] + b;
      assert KeepNameChars(a + b) == h + KeepNameChars(a[1..] + b);
      KeepNameCharsAppend(a[1..], b);
      AppendAssoc(h, KeepNameChars(a[1..]), KeepNameChars(b));
    }
  }

  /** Every allowed character is kept as often as it occurs. */
  lemma {:induction false} KeepNameCharsCounts(s: string)
    ensures forall c :: IsNameChar(c) ==> multiset(KeepNameChars(s))[c] == multiset(s)[c]
  {
    if s != [] {
      KeepNameCharsCounts(s[1..]);
      assert s == [s[0]] + s[1..];
    }
  }

  predicate NoSurvivor(x: string)
  {
    forall i :: 0 <= i < |x| ==> !Survives(x[i])
  }

  /** `r` keeps every allowed character of `x`, with each blank of `x` counted as one more '_'. */
  predicate KeepsCounts(r: string, x: string)
  {
    && (forall c :: IsNameChar(c) && c != '_' ==> multiset(r)[c] == multiset(x)[c])
    && multiset(r)['_'] == multiset(x)['_'] + multiset(x)[' ']
  }

  /**
   * `safe_filename`: strips surrounding whitespace, turns blanks into '_' and
   * drops every other character outside letters, digits, '.', '_' and '-';
   * "archivo" when nothing is left. Every allowed character of the stripped
   * name is kept as often as it occurs, and '_' also stands for each blank.
   */
  function SafeFilename(name: string): (r: string)
    ensures r != [] && AllNameChars(r)
    ensures NoSurvivor(Strip(name)) ==> r == FallbackName
    ensures !NoSurvivor(Strip(name)) ==> KeepsCounts(r, Strip(name))
    ensures !NoSurvivor(Strip(name)) ==> r == KeepNameChars(SpacesToUnderscores(Strip(name)))
  {
    var cleaned := KeepNameChars(SpacesToUnderscores(Strip(name)));
    CleanedEmpty(Strip(name));
    LiteralNameChars();
    if cleaned == [] then FallbackName else cleaned
  }

  /** The cleaned name is empty exactly when no character of the stripped name survives. */
  lemma CleanedEmpty(x: string)
    ensures KeepNameChars(SpacesToUnderscores(x)) == [] <==> NoSurvivor(x)
    ensures KeepsCounts(KeepNameChars(SpacesToUnderscores(x)), x)
  {
    var sp := SpacesToUnderscores(x);
    SpacesToUnderscoresCounts(x);
    KeepNameCharsCounts(sp);
    if !NoSurvivor(x) {
      SurvivorKept(x);
    }
    if KeepNameChars(sp) != [] {
      KeptSurvives(x);
    }
  }

  lemma SurvivorKept(x: string)
    requires !NoSurvivor(x)
    ensures KeepNameChars(SpacesToUnderscores(x)) != []
  {
    var sp := SpacesToUnderscores(x);
    var kept := KeepNameChars(sp);
    var i :| 0 <= i < |x| && Survives(x[i]);
    var c := sp[i];
    KeepNameCharsCounts(sp);
    assert IsNameChar(c);
    assert c in multiset(sp);
    assert c in multiset(kept);
  }

  lemma KeptSurvives(x: string)
    requires KeepNameChars(SpacesToUnderscores(x)) != []
    ensures !NoSurvivor(x)
  {
    var sp := SpacesToUnderscores(x);
    var kept := KeepNameChars(sp);
    var c := kept[0];
    KeepNameCharsCounts(sp);
    assert c in multiset(kept);
    assert c in multiset(sp);
    var j :| 0 <= j < |sp| && sp[j] == c;
    assert Survives(x[j]);
  }

  lemma {:induction false} KeepNameCharsAllowed(s: string)
    requires AllNameChars(s)
    ensures KeepNameChars(s) == s
  {
    if s != [] {
      KeepNameCharsAllowed(s[1..]);
      assert s == [s[0]] + s[1..];
    }
  }

  /** Allowed characters are neither whitespace nor blanks, so stripping and replacing leave them alone. */
  lemma NameCharsUntouched(s: string)
    requires s != [] && AllNameChars(s)
    ensures Strip(s) == s && SpacesToUnderscores(s) == s
  {
    assert !IsSpace(s[0]) && !IsSpace(s[|s| - 1]);
    var sp := SpacesToUnderscores(s);
    assert forall i :: 0 <= i < |s| ==> sp[i] == s[i];
  }

  /** A name is left as it is exactly when it is non-empty and made of allowed characters. */
  lemma SafeFilenameFixedPoint(s: string)
    ensures SafeFilename(s) == s <==> s != [] && AllNameChars(s)
  {
    if s != [] && AllNameChars(s) {
      NameCharsUntouched(s);
      KeepNameCharsAllowed(s);
    }
  }

  /** Cleaning a cleaned name changes nothing. */
  lemma SafeFilenameIdempotent(name: string)
    ensures SafeFilename(SafeFilename(name)) == SafeFilename(name)
  {
    SafeFilenameFixedPoint(SafeFilename(name));
  }

  // ---------------------------------------------------------------------
  // The table of lines

  /** The line the table starts with and "Nuevo" appends: empty texts, zero amounts, no file. */
  const BlankLine: Linea := Linea(Value(""), Value(""), Value(Cents(0)), Value(Cents(0)), Value(""), Absent)

  /** The uploader of each line: slot i shows the file chosen under key `mov_file_i`, if any. */
  function UploaderSlots(n: nat, uploads: map<nat, string>): (r: seq<Option<string>>)
    ensures |r| == n
    ensures forall i :: 0 <= i < n ==> (r[i].Some? <==> i in uploads)
    ensures forall i :: 0 <= i < n && i in uploads ==> r[i] == Some(uploads[i])
  {
    seq(n, i => if i in uploads then Some(uploads[i]) else None)
  }

  /** The session's `lineas` table and its file-uploader widgets. */
  class LineTable {
    var lineas: seq<Linea>
    /** The name of the file each uploader key `mov_file_i` holds, by i. */
    var uploads: map<nat, string>

    /** The first visit: one blank line, no files. */
    constructor ()
      ensures lineas == [BlankLine] && uploads == map[]
    {
      lineas := [BlankLine];
      uploads := map[];
    }

    /** "Nuevo": appends a blank line. */
    method Nuevo()
      modifies this
      ensures lineas == old(lineas) + [BlankLine] && uploads == old(uploads)
    {
      lineas := lineas + [BlankLine];
    }

    /** "Duplicar": appends a copy of the last line; an empty table stays empty. */
    method Duplicar()
      modifies this
      ensures old(lineas) == [] ==> lineas == []
      ensures old(lineas) != [] ==> lineas == old(lineas) + [old(lineas)[|old(lineas)| - 1]]
      ensures uploads == old(uploads)
    {
      if lineas != [] {
        lineas := lineas + [lineas[|lineas| - 1]];
      }
    }

    /** The editor's result replaces the table (rows may have been added, removed or changed). */
    method Editar(edited: seq<Linea>)
      modifies this
      ensures lineas == edited && uploads == old(uploads)
    {
      lineas := edited;
    }

    /** A file chosen in the uploader of line `slot + 1`. */
    method ElegirArchivo(slot: nat, nombre: string)
      modifies this
      ensures uploads == old(uploads)[slot := nombre] && lineas == old(lineas)
    {
      uploads := uploads[slot := nombre];
    }

    /** `uploaded_files`: one entry per line of the table, `None` where no file was chosen. */
    function ArchivosSubidos(): (r: seq<Option<string>>)
      reads this
      ensures |r| == |lineas|
      ensures forall i :: 0 <= i < |r| ==> (r[i].Some? <==> i in uploads)
      ensures forall i :: 0 <= i < |r| && i in uploads ==> r[i] == Some(uploads[i])
    {
      UploaderSlots(|lineas|, uploads)
    }

    /** The reset after a save: one blank line again, and the first `slots` uploaders emptied. */
    method Reiniciar(slots: nat)
      modifies this
      ensures lineas == [BlankLine]
      ensures forall k :: k in uploads <==> k in old(uploads) && k >= slots
      ensures forall k :: k in uploads ==> uploads[k] == old(uploads)[k]
    {
      lineas := [BlankLine];
      var i := 0;
      while i < slots
        invariant 0 <= i <= slots
        invariant lineas == [BlankLine]
        invariant forall k :: k in uploads <==> k in old(uploads) && k >= i
        invariant forall k :: k in uploads ==> uploads[k] == old(uploads)[k]
      {
        if i in uploads {
          uploads := uploads - {i};
        }
        i := i + 1;
      }
    }
  }

  // ---------------------------------------------------------------------
  // Totals

  datatype Side = Debe | Haber

  function AmountCell(l: Linea, side: Side): Cell<Number>
  {
    match side
    case Debe => l.debito
    case Haber => l.credito
  }

  /**
   * `lineas[column].fillna(0).sum()`, in cents: a missing amount counts as 0,
   * the same reading the save gives each row (`GeDb.StoredAmount`).
   */
  function Total(ls: seq<Linea>, side: Side): (r: int)
    ensures |ls| == 1 ==> r == GeDb.StoredAmount(AmountCell(ls[0], side))
    ensures (forall k :: 0 <= k < |ls| ==> GeDb.StoredAmount(AmountCell(ls[k], side)) == 0) ==> r == 0
  {
    if ls == [] then 0 else Total(ls[..|ls| - 1], side) + GeDb.StoredAmount(AmountCell(ls[|ls| - 1], side))
  }

  predicate Cuadra(ls: seq<Linea>)
  {
    Total(ls, Debe) == Total(ls, Haber)
  }

  lemma {:induction false} TotalAppend(a: seq<Linea>, b: seq<Linea>, side: Side)
    ensures Total(a + b, side) == Total(a, side) + Total(b, side)
  {
    if b == [] {
      assert a + b == a;
    } else {
      assert (a + b)[..|a + b| - 1] == a + b[..|b| - 1];
      assert (a + b)[|a + b| - 1] == b[|b| - 1];
      TotalAppend(a, b[..|b| - 1], side);
    }
  }

  /** Totals only count amounts: lines that agree on their amounts have the same totals. */
  lemma {:induction false} TotalOnlyAmounts(a: seq<Linea>, b: seq<Linea>, side: Side)
    requires |a| == |b|
    requires forall k :: 0 <= k < |a| ==> AmountCell(a[k], side) == AmountCell(b[k], side)
    ensures Total(a, side) == Total(b, side)
  {
    if a != [] {
      TotalOnlyAmounts(a[..|a| - 1], b[..|b| - 1], side);
    }
  }

  /** "Nuevo" leaves both totals, and so the balance, as they were. */
  lemma NuevoKeepsTotals(ls: seq<Linea>, side: Side)
    ensures Total(ls + [BlankLine], side) == Total(ls, side)
    ensures Cuadra(ls + [BlankLine]) <==> Cuadra(ls)
  {
    TotalAppend(ls, [BlankLine], Debe);
    TotalAppend(ls, [BlankLine], Haber);
  }

  /**
   * "Duplicar" adds the last line's amounts once more: a balanced table stays
   * balanced exactly when that line's debit equals its credit.
   */
  lemma DuplicarTotals(ls: seq<Linea>)
    requires ls != []
    ensures forall side :: Total(ls + [ls[|ls| - 1]], side)
                           == Total(ls, side) + GeDb.StoredAmount(AmountCell(ls[|ls| - 1], side))
    ensures Cuadra(ls) ==> (Cuadra(ls + [ls[|ls| - 1]]) <==>
                            GeDb.StoredAmount(ls[|ls| - 1].debito) == GeDb.StoredAmount(ls[|ls| - 1].credito))
  {
    var last := ls[|ls| - 1];
    TotalAppend(ls, [last], Debe);
    TotalAppend(ls, [last], Haber);
    assert [last][..0] == [];
  }

  /** The sum of one column of stored detail rows. */
  function StoredTotal(ds: seq<GeDb.Detalle>, side: Side): int
  {
    if ds == [] then 0
    else StoredTotal(ds[..|ds| - 1], side) + (if side == Debe then ds[|ds| - 1].debito else ds[|ds| - 1].credito)
  }

  /** The detail rows saved for a table add up to the table's totals, which the header stores. */
  lemma {:induction false} StoredTotalOfLines(movimientoId: nat, firstId: nat, ls: seq<Linea>, side: Side)
    ensures StoredTotal(GeDb.DetallesDe(movimientoId, firstId, ls), side) == Total(ls, side)
  {
    if ls != [] {
      var ds := GeDb.DetallesDe(movimientoId, firstId, ls);
      var init := GeDb.DetallesDe(movimientoId, firstId, ls[..|ls| - 1]);
      assert ds[..|ds| - 1] == init;
      StoredTotalOfLines(movimientoId, firstId, ls[..|ls| - 1], side);
    }
  }

  /**
   * Counter-example to the save's `float(x or 0)` as written: a NaN debit,
   * which the page totals count as 0, reaches the detail row as NaN.
   */
  lemma NaNDebitAsWritten()
    ensures var l := BlankLine.(debito := Value(NaN));
            Total([l], Debe) == 0 && GeDb.StoredAmountAsWritten(l.debito) == NaN
  {
    var l := BlankLine.(debito := Value(NaN));
    assert [l][..0] == [];
  }

  // ---------------------------------------------------------------------
  // Catalogs

  /** A row of `clientes`, `empresas` or `bancos`. */
  datatype CatalogRow = CatalogRow(nombre: string, id: nat)

  /** The option text of a row: `f'{nombre} (ID {id})'`. */
  function CatalogLabel(row: CatalogRow): (text: string)
    ensures text != [] && text[|text| - 1] == ')'
  {
    row.nombre + " (ID " + NatToString(row.id) + ")"
  }

  /** Two rows with the same option text have the same id. */
  lemma LabelDeterminesId(a: CatalogRow, b: CatalogRow)
    requires CatalogLabel(a) == CatalogLabel(b)
    ensures a.id == b.id
  {
    var la, lb := CatalogLabel(a), CatalogLabel(b);
    assert la[..|la| - 1] == (a.nombre + " (ID ") + NatToString(a.id);
    assert lb[..|lb| - 1] == (b.nombre + " (ID ") + NatToString(b.id);
    DigitsSuffixUnique(a.nombre + " (ID ", NatToString(a.id), b.nombre + " (ID ", NatToString(b.id));
  }

  /** The `{label: id}` dictionary built from the rows. */
  function CatalogMap(rows: seq<CatalogRow>): (m: map<string, nat>)
    ensures forall x :: x in m <==> exists row :: row in rows && CatalogLabel(row) == x
  {
    if rows == [] then map[]
    else
      var m := CatalogMap(rows[..|rows| - 1]);
      assert forall row :: row in rows <==> row in rows[..|rows| - 1] || row == rows[|rows| - 1];
      m[CatalogLabel(rows[|rows| - 1]) := rows[|rows| - 1].id]
  }

  /** Every row's option text resolves to that row's id. */
  lemma {:induction false} CatalogMapResolves(rows: seq<CatalogRow>)
    ensures forall row :: row in rows ==> CatalogLabel(row) in CatalogMap(rows) && CatalogMap(rows)[CatalogLabel(row)] == row.id
  {
    if rows != [] {
      var init := rows[..|rows| - 1];
      var last := rows[|rows| - 1];
      CatalogMapResolves(init);
      forall row | row in rows
        ensures CatalogMap(rows)[CatalogLabel(row)] == row.id
      {
        if CatalogLabel(row) == CatalogLabel(last) {
          LabelDeterminesId(row, last);
        } else {
          assert row in init;
        }
      }
    }
  }

  /** "Seleccione" is never an option text of a row. */
  lemma SeleccioneIsNoLabel(rows: seq<CatalogRow>)
    ensures Seleccione !in CatalogMap(rows)
  {
    forall row ensures CatalogLabel(row) != Seleccione {
      assert Seleccione[|Seleccione| - 1] != ')';
    }
  }

  /** The position of the first occurrence of `x` in `s`. */
  function FirstIndex(s: seq<string>, x: string): (k: nat)
    requires x in s
    ensures k < |s| && s[k] == x
    ensures forall j :: 0 <= j < k ==> s[j] != x
  {
    if s[0] == x then 0 else FirstIndex(s[1..], x) + 1
  }

  /** A first occurrence inside a prefix is the first occurrence in the whole sequence. */
  lemma FirstIndexPrefix(s: seq<string>, n: nat, x: string)
    requires n <= |s| && x in s[..n]
    ensures FirstIndex(s[..n], x) == FirstIndex(s, x)
  {
    var k := FirstIndex(s[..n], x);
    assert s[k] == x;
  }

  /**
   * `list(d.keys())` of a dictionary built in row order: each text once, in
   * the order of its first occurrence.
   */
  function Dedup(s: seq<string>): (r: seq<string>)
    ensures forall x :: x in r <==> x in s
    ensures forall i, j :: 0 <= i < j < |r| ==> r[i] != r[j]
    ensures forall i, j :: 0 <= i < j < |r| ==> FirstIndex(s, r[i]) < FirstIndex(s, r[j])
  {
    if s == [] then []
    else
      var init := s[..|s| - 1];
      var d := Dedup(init);
      assert s == init + [s[|s| - 1]];
      DedupFirstIndices(init, s[|s| - 1], d);
      if s[|s| - 1] in init then d else d + [s[|s| - 1]]
  }

  /** The first occurrences of texts of `p` do not move when one more text is appended. */
  lemma DedupFirstIndices(p: seq<string>, last: string, d: seq<string>)
    requires forall i :: 0 <= i < |d| ==> d[i] in p
    requires forall i, j :: 0 <= i < j < |d| ==> FirstIndex(p, d[i]) < FirstIndex(p, d[j])
    ensures forall i, j :: 0 <= i < j < |d| ==> FirstIndex(p + [last], d[i]) < FirstIndex(p + [last], d[j])
    ensures forall i :: 0 <= i < |d| ==> FirstIndex(p + [last], d[i]) < |p|
    ensures last !in p ==> FirstIndex(p + [last], last) == |p|
  {
    var s := p + [last];
    assert s[..|p|] == p;
    forall i | 0 <= i < |d|
      ensures FirstIndex(s, d[i]) == FirstIndex(p, d[i])
    {
      FirstIndexPrefix(s, |p|, d[i]);
    }
  }

  function Labels(rows: seq<CatalogRow>): (r: seq<string>)
    ensures |r| == |rows| && forall k :: 0 <= k < |rows| ==> r[k] == CatalogLabel(rows[k])
  {
    seq(|rows|, k requires 0 <= k < |rows| => CatalogLabel(rows[k]))
  }

  /** The options of a catalog selection: "Seleccione", then each distinct option text. */
  function CatalogOptions(rows: seq<CatalogRow>): (opts: seq<string>)
    ensures opts != [] && opts[0] == Seleccione
    ensures forall x :: x in opts[1..] <==> x in CatalogMap(rows)
    ensures forall i, j :: 0 <= i < j < |opts| ==> opts[i] != opts[j]
    ensures forall i :: 1 <= i < |opts| ==> opts[i] in Labels(rows)
    ensures forall i, j :: 1 <= i < j < |opts| ==> FirstIndex(Labels(rows), opts[i]) < FirstIndex(Labels(rows), opts[j])
  {
    var labels := Dedup(Labels(rows));
    SeleccioneIsNoLabel(rows);
    LabelsAreMapKeys(rows);
    var opts := [Seleccione] + labels;
    assert opts[1..] == labels;
    opts
  }

  /** The option texts of the rows are exactly the keys of the catalog's dictionary. */
  lemma LabelsAreMapKeys(rows: seq<CatalogRow>)
    ensures forall x :: x in Labels(rows) <==> x in CatalogMap(rows)
  {
    forall x | x in CatalogMap(rows)
      ensures x in Labels(rows)
    {
      var row :| row in rows && CatalogLabel(row) == x;
      var k :| 0 <= k < |rows| && rows[k] == row;
      assert Labels(rows)[k] == x;
    }
  }

  // ---------------------------------------------------------------------
  // The Enviar checks

  datatype GateError = FaltaSeleccion | IdsNoResueltos | Descuadre

  /** What the checks let through: the three resolved ids and the two equal totals. */
  datatype Aprobado = Aprobado(clienteId: nat, empresaId: nat, bancoId: nat, totalDebito: int, totalCredito: int)

  /**
   * The checks of the Enviar button, in order: every selection made, every
   * selection resolved to an id, the table balanced (the totals are exact
   * cents, so comparing them rounded to two decimals is comparing them).
   */
  function EnviarGate(clienteSel: string, empresaSel: string, bancoSel: string,
                      clientes: map<string, nat>, empresas: map<string, nat>, bancos: map<string, nat>,
                      ls: seq<Linea>): (r: Result<Aprobado, GateError>)
    ensures r == Failure(FaltaSeleccion) <==>
              clienteSel == Seleccione || empresaSel == Seleccione || bancoSel == Seleccione
    ensures r == Failure(IdsNoResueltos) <==>
              && clienteSel != Seleccione && empresaSel != Seleccione && bancoSel != Seleccione
              && (clienteSel !in clientes || empresaSel !in empresas || bancoSel !in bancos)
    ensures r == Failure(Descuadre) <==>
              && clienteSel != Seleccione && empresaSel != Seleccione && bancoSel != Seleccione
              && clienteSel in clientes && empresaSel in empresas && bancoSel in bancos
              && !Cuadra(ls)
    ensures r.Success? ==>
              && r.value == Aprobado(clientes[clienteSel], empresas[empresaSel], bancos[bancoSel],
                                     Total(ls, Debe), Total(ls, Haber))
              && r.value.totalDebito == r.value.totalCredito
  {
    if clienteSel == Seleccione || empresaSel == Seleccione || bancoSel == Seleccione then
      Failure(FaltaSeleccion)
    else if clienteSel !in clientes || empresaSel !in empresas || bancoSel !in bancos then
      Failure(IdsNoResueltos)
    else if Total(ls, Debe) != Total(ls, Haber) then
      Failure(Descuadre)
    else
      Success(Aprobado(clientes[clienteSel], empresas[empresaSel], bancos[bancoSel],
                       Total(ls, Debe), Total(ls, Haber)))
  }

  /** Selections taken from the catalogs' own options always resolve. */
  lemma OptionsAlwaysResolve(clientesDb: seq<CatalogRow>, empresasDb: seq<CatalogRow>, bancosDb: seq<CatalogRow>,
                             clienteSel: string, empresaSel: string, bancoSel: string, ls: seq<Linea>)
    requires clienteSel in CatalogOptions(clientesDb)
    requires empresaSel in CatalogOptions(empresasDb)
    requires bancoSel in CatalogOptions(bancosDb)
    ensures EnviarGate(clienteSel, empresaSel, bancoSel, CatalogMap(clientesDb), CatalogMap(empresasDb),
                       CatalogMap(bancosDb), ls) != Failure(IdsNoResueltos)
  {
    OptionResolves(clientesDb, clienteSel);
    OptionResolves(empresasDb, empresaSel);
    OptionResolves(bancosDb, bancoSel);
  }

  lemma OptionResolves(rows: seq<CatalogRow>, sel: string)
    requires sel in CatalogOptions(rows)
    ensures sel == Seleccione || sel in CatalogMap(rows)
  {
    var opts := CatalogOptions(rows);
    var k :| 0 <= k < |opts| && opts[k] == sel;
    if k > 0 {
      assert sel in opts[1..];
    }
  }

  /** With a catalog that failed to load (no rows), every submission stops at the selection check. */
  lemma EmptyCatalogBlocks(clientesDb: seq<CatalogRow>, empresasDb: seq<CatalogRow>, bancosDb: seq<CatalogRow>,
                           clienteSel: string, empresaSel: string, bancoSel: string, ls: seq<Linea>)
    requires clientesDb == [] || empresasDb == [] || bancosDb == []
    requires clienteSel in CatalogOptions(clientesDb)
    requires empresaSel in CatalogOptions(empresasDb)
    requires bancoSel in CatalogOptions(bancosDb)
    ensures EnviarGate(clienteSel, empresaSel, bancoSel, CatalogMap(clientesDb), CatalogMap(empresasDb),
                       CatalogMap(bancosDb), ls) == Failure(FaltaSeleccion)
  {
    OptionResolves(clientesDb, clienteSel);
    OptionResolves(empresasDb, empresaSel);
    OptionResolves(bancosDb, bancoSel);
  }

  // ---------------------------------------------------------------------
  // Stored uploads

  lemma {:induction false} NameCharsJoin(a: string, b: string)
    requires AllNameChars(a) && AllNameChars(b)
    ensures AllNameChars(a + b)
  {
    forall k | 0 <= k < |a + b| ensures IsNameChar((a + b)[k]) {
      if k < |a| {
        assert (a + b)[k] == a[k];
      } else {
        assert (a + b)[k] == b[k - |a|];
      }
    }
  }

  lemma DigitsAreNameChars(s: string)
    requires AllDigits(s)
    ensures AllNameChars(s)
  {
  }

  lemma LiteralNameChars()
    ensures AllNameChars(FallbackName) && AllNameChars("mov_") && AllNameChars("_linea_") && AllNameChars("_")
  {
  }

  lemma CompactNameChars(stamp: DateTime)
    requires ValidDateTime(stamp)
    ensures AllNameChars(FormatCompact(stamp))
  {
    var c := FormatCompact(stamp);
    forall k | 0 <= k < 15 ensures IsNameChar(c[k]) {
      if k < 4 {
        assert c[k] == c[0..4][k];
      } else if k < 6 {
        assert c[k] == c[4..6][k - 4];
      } else if k < 8 {
        assert c[k] == c[6..8][k - 6];
      } else if k == 8 {
        assert c[k] == '_';
      } else if k < 11 {
        assert c[k] == c[9..11][k - 9];
      } else if k < 13 {
        assert c[k] == c[11..13][k - 11];
      } else {
        assert c[k] == c[13..15][k - 13];
      }
    }
  }

  /** `mov_{stamp}_linea_`: the fixed-width head of a stored name, with the stamp at positions 4 to 18. */
  function NameHead(stamp: DateTime): (h: string)
    requires ValidDateTime(stamp)
    ensures |h| == 26 && h[4..19] == FormatCompact(stamp) && AllNameChars(h)
  {
    var c := FormatCompact(stamp);
    CompactNameChars(stamp);
    LiteralNameChars();
    NameCharsJoin("mov_", c);
    NameCharsJoin("mov_" + c, "_linea_");
    var h := "mov_" + c + "_linea_";
    assert h[4..19] == c;
    h
  }

  /** `{i+1}_{safe_filename(name)}`: the line number, then the cleaned name. */
  function NameTail(i: nat, name: string): (t: string)
    ensures AllNameChars(t)
  {
    var d := NatToString(i + 1);
    DigitsAreNameChars(d);
    LiteralNameChars();
    NameCharsJoin("_", SafeFilename(name));
    NameCharsJoin(d, "_" + SafeFilename(name));
    d + ("_" + SafeFilename(name))
  }

  /** `f"mov_{stamp}_linea_{i+1}_{safe_filename(name)}"`: the stored name of line i's file. */
  function UniqueName(stamp: DateTime, i: nat, name: string): (r: string)
    requires ValidDateTime(stamp)
    ensures AllNameChars(r)
  {
    NameCharsJoin(NameHead(stamp), NameTail(i, name));
    NameHead(stamp) + NameTail(i, name)
  }

  lemma NameTailInjective(i1: nat, a: string, i2: nat, b: string)
    requires NameTail(i1, a) == NameTail(i2, b)
    ensures i1 == i2 && SafeFilename(a) == SafeFilename(b)
  {
    var r1, r2 := "_" + SafeFilename(a), "_" + SafeFilename(b);
    DigitsPrefixUnique(NatToString(i1 + 1), r1, NatToString(i2 + 1), r2);
    assert SafeFilename(a) == r1[1..] && SafeFilename(b) == r2[1..];
  }

  lemma UniqueNameDetermines(s1: DateTime, i1: nat, a: string, s2: DateTime, i2: nat, b: string)
    requires ValidDateTime(s1) && ValidDateTime(s2)
    requires UniqueName(s1, i1, a) == UniqueName(s2, i2, b)
    ensures s1 == s2 && i1 == i2 && SafeFilename(a) == SafeFilename(b)
  {
    var u1, u2 := UniqueName(s1, i1, a), UniqueName(s2, i2, b);
    var h1, h2 := NameHead(s1), NameHead(s2);
    assert h1 == u1[..26] && h2 == u2[..26];
    assert FormatCompact(s1) == h1[4..19] == h2[4..19] == FormatCompact(s2);
    FormatCompactInjective(s1, s2);
    assert NameTail(i1, a) == u1[26..] && NameTail(i2, b) == u2[26..];
    NameTailInjective(i1, a, i2, b);
  }

  /** Stored names differ whenever their stamps, their line numbers or their cleaned names differ. */
  lemma UniqueNameInjective(s1: DateTime, i1: nat, a: string, s2: DateTime, i2: nat, b: string)
    requires ValidDateTime(s1) && ValidDateTime(s2)
    ensures UniqueName(s1, i1, a) == UniqueName(s2, i2, b) <==>
            s1 == s2 && i1 == i2 && SafeFilename(a) == SafeFilename(b)
  {
    if UniqueName(s1, i1, a) == UniqueName(s2, i2, b) {
      UniqueNameDetermines(s1, i1, a, s2, i2, b);
    }
  }

  /** `os.path.join("data", "uploads", unique_name)`. */
  function StoredPath(stamp: DateTime, i: nat, name: string): string
    requires ValidDateTime(stamp)
  {
    UploadDir + "/" + UniqueName(stamp, i, name)
  }

  lemma NoSeparators(s: string)
    requires AllNameChars(s)
    ensures '/' !in s && '\\' !in s
  {
  }

  lemma NoBackslash(dir: string, u: string)
    requires dir == UploadDir + ['/'] && '\\' !in u
    ensures '\\' !in dir + u
  {
    assert forall k :: 0 <= k < |dir| ==> dir[k] != '\\';
  }

  /** Two uploads share a stored path iff they share the stamp, the line number and the cleaned name. */
  lemma StoredPathInjective(s1: DateTime, i1: nat, a: string, s2: DateTime, i2: nat, b: string)
    requires ValidDateTime(s1) && ValidDateTime(s2)
    ensures StoredPath(s1, i1, a) == StoredPath(s2, i2, b) <==>
            s1 == s2 && i1 == i2 && SafeFilename(a) == SafeFilename(b)
  {
    BasenameOfStoredPath(s1, i1, a);
    BasenameOfStoredPath(s2, i2, b);
    UniqueNameInjective(s1, i1, a, s2, i2, b);
  }

  /** The download of a stored upload is offered under the stored name itself. */
  lemma BasenameOfStoredPath(stamp: DateTime, i: nat, name: string)
    requires ValidDateTime(stamp)
    ensures Basename(StoredPath(stamp, i, name)) == UniqueName(stamp, i, name)
  {
    var u := UniqueName(stamp, i, name);
    var p := StoredPath(stamp, i, name);
    NoSeparators(u);
    assert p == UploadDir + ['/'] + u;
    NoBackslash(UploadDir + ['/'], u);
    AfterLastNone(p, '\\');
    AfterLastJoin(UploadDir, '/', u);
  }

  /** The file name of the download button of a detail row, offered only for a non-empty path. */
  function DownloadName(archivo: Option<string>): (r: Option<string>)
    ensures r.Some? <==> archivo.Some? && archivo.value != ""
    ensures r.Some? ==> '/' !in r.value && '\\' !in r.value
    ensures r.Some? ==> |r.value| <= |archivo.value| && r.value == archivo.value[|archivo.value| - |r.value|..]
    ensures r.Some? && |r.value| < |archivo.value| ==>
              archivo.value[|archivo.value| - |r.value| - 1] == '/' || archivo.value[|archivo.value| - |r.value| - 1] == '\\'
  {
    match archivo
    case Some(p) => if p != "" then Some(Basename(p)) else None
    case None => None
  }

  // ---------------------------------------------------------------------
  // Attaching the uploads to the lines

  /** The entry of `saved_paths` for slot i: the stored path of its file, or `None` for an empty slot. */
  function SavedPath(upload: Option<string>, stamp: DateTime, i: nat): (r: Option<string>)
    requires ValidDateTime(stamp)
    ensures r.Some? <==> upload.Some?
    ensures upload.Some? ==> r == Some(StoredPath(stamp, i, upload.value))
  {
    match upload
    case None => None
    case Some(name) => Some(StoredPath(stamp, i, name))
  }

  /** `saved_paths`, one entry per uploader slot; `stamps[i]` is the clock reading when slot i is saved. */
  function SavedPaths(uploads: seq<Option<string>>, stamps: seq<DateTime>): (r: seq<Option<string>>)
    requires |stamps| == |uploads| && forall k :: 0 <= k < |stamps| ==> ValidDateTime(stamps[k])
    ensures |r| == |uploads|
    ensures forall i :: 0 <= i < |r| ==> (r[i].Some? <==> uploads[i].Some?)
    ensures forall i :: 0 <= i < |r| ==> r[i] == SavedPath(uploads[i], stamps[i], i)
  {
    seq(|uploads|, i requires 0 <= i < |uploads| => SavedPath(uploads[i], stamps[i], i))
  }

  /** The line with its `archivo` key set from slot i: the stored path, or `None`. */
  function Attach(l: Linea, i: nat, saved: seq<Option<string>>): Linea
  {
    l.(archivo := if i < |saved| && saved[i].Some? then Value(saved[i].value) else Null)
  }

  /**
   * The lines after `lineas[i]["archivo"] = saved_paths[i] if i < len(saved_paths) else None`:
   * everything but `archivo` is kept, and every line gets the key.
   */
  function WithArchivos(ls: seq<Linea>, saved: seq<Option<string>>): (r: seq<Linea>)
    ensures |r| == |ls|
    ensures forall i :: 0 <= i < |r| ==> r[i] == Attach(ls[i], i, saved)
    ensures forall i :: 0 <= i < |r| ==> r[i].archivo != Absent
  {
    if ls == [] then []
    else WithArchivos(ls[..|ls| - 1], saved) + [Attach(ls[|ls| - 1], |ls| - 1, saved)]
  }

  /** Attaching files changes no amount, so neither total. */
  lemma AttachKeepsTotals(ls: seq<Linea>, saved: seq<Option<string>>, side: Side)
    ensures Total(WithArchivos(ls, saved), side) == Total(ls, side)
  {
    TotalOnlyAmounts(WithArchivos(ls, saved), ls, side);
  }

  /** Saving one more slot appends its entry to the paths saved so far. */
  lemma SavedPathsSnoc(uploads: seq<Option<string>>, stamps: seq<DateTime>, i: nat)
    requires |stamps| == |uploads| && forall k :: 0 <= k < |stamps| ==> ValidDateTime(stamps[k])
    requires i < |uploads|
    ensures SavedPaths(uploads[..i + 1], stamps[..i + 1])
            == SavedPaths(uploads[..i], stamps[..i]) + [SavedPath(uploads[i], stamps[i], i)]
  {
    var longer := SavedPaths(uploads[..i + 1], stamps[..i + 1]);
    var shorter := SavedPaths(uploads[..i], stamps[..i]);
    assert forall k :: 0 <= k < i ==> longer[k] == shorter[k];
  }

  /** The first loop of the save: store each chosen file and collect its path. */
  method GuardarArchivos(uploads: seq<Option<string>>, stamps: seq<DateTime>) returns (saved: seq<Option<string>>)
    requires |stamps| == |uploads| && forall k :: 0 <= k < |stamps| ==> ValidDateTime(stamps[k])
    ensures saved == SavedPaths(uploads, stamps)
  {
    saved := [];
    var i := 0;
    while i < |uploads|
      invariant 0 <= i <= |uploads|
      invariant saved == SavedPaths(uploads[..i], stamps[..i])
    {
      var entry: Option<string>;
      if uploads[i].None? {
        entry := None;
      } else {
        var path := StoredPath(stamps[i], i, uploads[i].value);
        entry := Some(path);
      }
      SavedPathsSnoc(uploads, stamps, i);
      saved := saved + [entry];
      i := i + 1;
    }
    assert uploads[..i] == uploads && stamps[..i] == stamps;
  }

  /** The second loop of the save: set every line's `archivo` from its slot. */
  method AsignarArchivos(ls: seq<Linea>, saved: seq<Option<string>>) returns (attached: seq<Linea>)
    ensures attached == WithArchivos(ls, saved)
  {
    attached := ls;
    var j := 0;
    while j < |attached|
      invariant 0 <= j <= |attached| == |ls|
      invariant forall k :: 0 <= k < j ==> attached[k] == Attach(ls[k], k, saved)
      invariant forall k :: j <= k < |ls| ==> attached[k] == ls[k]
    {
      var archivo := if j < |saved| && saved[j].Some? then Value(saved[j].value) else Null;
      attached := attached[j := attached[j].(archivo := archivo)];
      j := j + 1;
    }
  }

  /** A saved line whose slot held a file lists a download under the file's stored name. */
  lemma DownloadOfAttachedLine(movimientoId: nat, firstId: nat, ls: seq<Linea>,
                               uploads: seq<Option<string>>, stamps: seq<DateTime>, k: nat)
    requires |stamps| == |uploads| && forall j :: 0 <= j < |stamps| ==> ValidDateTime(stamps[j])
    requires k < |ls| && k < |uploads|
    ensures var row := GeDb.DetallesDe(movimientoId, firstId, WithArchivos(ls, SavedPaths(uploads, stamps)))[k];
            && (row.archivo.Some? <==> uploads[k].Some?)
            && (uploads[k].Some? ==> DownloadName(row.archivo) == Some(UniqueName(stamps[k], k, uploads[k].value)))
  {
    if uploads[k].Some? {
      BasenameOfStoredPath(stamps[k], k, uploads[k].value);
    }
  }

  // ---------------------------------------------------------------------
  // The whole submission

  datatype EnviarError = Rechazado(motivo: GateError) | FechaNoValida

  /**
   * The Enviar button: the checks, then the stored files and the save, then
   * the reset of the table and of the uploaders. A stop or a failed save
   * leaves the table and the database as they were.
   */
  method Enviar(tabla: LineTable, db: GeDb.Database, fechaHora: string,
                clienteSel: string, empresaSel: string, bancoSel: string,
                clientes: map<string, nat>, empresas: map<string, nat>, bancos: map<string, nat>,
                stamps: seq<DateTime>)
    returns (r: Result<nat, EnviarError>)
    requires db.Valid()
    requires |stamps| == |tabla.lineas| && forall k :: 0 <= k < |stamps| ==> ValidDateTime(stamps[k])
    modifies tabla, db
    ensures db.Valid()
    ensures EnviarGate(clienteSel, empresaSel, bancoSel, clientes, empresas, bancos, old(tabla.lineas)).Failure? ==>
      && r == Failure(Rechazado(EnviarGate(clienteSel, empresaSel, bancoSel, clientes, empresas, bancos, old(tabla.lineas)).error))
      && unchanged(tabla) && unchanged(db)
    ensures EnviarGate(clienteSel, empresaSel, bancoSel, clientes, empresas, bancos, old(tabla.lineas)).Success? ==>
      if ParseDisplay(fechaHora).None? then
        r == Failure(FechaNoValida) && unchanged(tabla) && unchanged(db)
      else
        && r == Success(old(db.nextMovId))
        && db.movimientos == old(db.movimientos) + [GeDb.Movimiento(
             old(db.nextMovId), ParseDisplay(fechaHora).value, clienteSel, empresaSel, bancoSel,
             Total(old(tabla.lineas), Debe), Total(old(tabla.lineas), Haber))]
        && db.detalle == old(db.detalle) + GeDb.DetallesDe(
             old(db.nextMovId), old(db.nextDetId),
             WithArchivos(old(tabla.lineas), SavedPaths(UploaderSlots(|old(tabla.lineas)|, old(tabla.uploads)), stamps)))
        && db.nextMovId == old(db.nextMovId) + 1
        && db.nextDetId == old(db.nextDetId) + |old(tabla.lineas)|
        && tabla.lineas == [BlankLine]
        && (forall k :: k in tabla.uploads <==> k in old(tabla.uploads) && k >= |old(tabla.lineas)|)
        && (forall k :: k in tabla.uploads ==> tabla.uploads[k] == old(tabla.uploads)[k])
  {
    var gate := EnviarGate(clienteSel, empresaSel, bancoSel, clientes, empresas, bancos, tabla.lineas);
    if gate.Failure? {
      return Failure(Rechazado(gate.error));
    }
    var files := tabla.ArchivosSubidos();
    var saved := GuardarArchivos(files, stamps);
    var attached := AsignarArchivos(tabla.lineas, saved);
    var res := db.GuardarMovimiento(fechaHora, clienteSel, empresaSel, bancoSel,
                                    gate.value.totalDebito, gate.value.totalCredito, attached);
    if res.Failure? {
      return Failure(FechaNoValida);
    }
    tabla.Reiniciar(|files|);
    r := Success(res.value);
  }

  /** A saved movement is balanced, and its detail rows add up to its header's totals. */
  lemma SavedMovementBalances(ls: seq<Linea>, saved: seq<Option<string>>, movimientoId: nat, firstId: nat)
    requires Cuadra(ls)
    ensures var ds := GeDb.DetallesDe(movimientoId, firstId, WithArchivos(ls, saved));
            && StoredTotal(ds, Debe) == Total(ls, Debe)
            && StoredTotal(ds, Haber) == Total(ls, Haber)
            && StoredTotal(ds, Debe) == StoredTotal(ds, Haber)
  {
    var attached := WithArchivos(ls, saved);
    AttachKeepsTotals(ls, saved, Debe);
    AttachKeepsTotals(ls, saved, Haber);
    StoredTotalOfLines(movimientoId, firstId, attached, Debe);
    StoredTotalOfLines(movimientoId, firstId, attached, Haber);
  }
}
