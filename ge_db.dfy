/**
 * The persistence side: the `movimientos` header table and the
 * `movimiento_detalle` table, each with its AUTO_INCREMENT id, the save of one
 * movement, and the three read queries.
 */
module GeDb {
  import opened Wrappers
  import opened Timestamps
  import opened Records

  /** A row of `movimientos`. */
  datatype Movimiento = Movimiento(
    id: nat, fechaHora: DateTime, cliente: string, empresa: string, banco: string,
    totalDebito: int, totalCredito: int)

  /** A row of `movimiento_detalle`; `None` is SQL NULL. Amounts are in cents. */
  datatype Detalle = Detalle(
    id: nat, movimientoId: nat, cuenta: Option<string>, descripcion: Option<string>,
    debito: int, credito: int, notas: Option<string>, archivo: Option<string>)

  /** A row of the summary listing. */
  datatype Resumen = Resumen(
    id: nat, fecha: Date, cliente: string, empresa: string, banco: string,
    debito: int, credito: int, estado: string)

  datatype DbError = FechaInvalida

  /** The DATETIME text the save sends for the form's date-time text, or `None` where `strptime` raises. */
  function FechaSql(fechaHora: string): (r: Option<string>)
    ensures r.None? <==> ParseDisplay(fechaHora).None?
    ensures r.Some? ==> r.value == FormatSql(ParseDisplay(fechaHora).value)
  {
    match ParseDisplay(fechaHora)
    case None => None
    case Some(t) => Some(FormatSql(t))
  }

  /**
   * A text laid out as "dd/mm/YYYY HH:MM:SS" with accepted field texts
   * converts to the SQL text of the date-time its fields spell, and is
   * refused exactly when that is no real date-time.
   */
  lemma FechaSqlLayout(p: DisplayParts)
    requires WellCut(p) && FieldsAccepted(p)
    ensures FechaSql(JoinDisplay(p)).None? <==> !ValidDateTime(FieldsValue(p))
    ensures ValidDateTime(FieldsValue(p)) ==> FechaSql(JoinDisplay(p)) == Some(FormatSql(FieldsValue(p)))
  {
    CutJoin(p);
  }

  /** The form's default text converts to the SQL text of the same date-time. */
  lemma FechaSqlOfDisplay(t: DateTime)
    requires ValidDateTime(t)
    ensures FechaSql(FormatDisplay(t)) == Some(FormatSql(t))
  {
    ParseFormatDisplay(t);
  }

  /** `l.get(key, "")`: an absent key gives "", a `None` value stays NULL. */
  function TextField(c: Cell<string>): (r: Option<string>)
    ensures r.None? <==> c.Null?
    ensures c.Absent? ==> r == Some("")
    ensures c.Value? ==> r == Some(c.v)
  {
    match c
    case Absent => Some("")
    case Null => None
    case Value(s) => Some(s)
  }

  /**
   * `float(l.get(key, 0) or 0)` as written: an absent key, `None` and 0 give
   * 0, but NaN is truthy in Python and passes through.
   */
  function StoredAmountAsWritten(c: Cell<Number>): (r: Number)
    ensures r.NaN? <==> c == Value(NaN)
    ensures c.Value? && c.v.Cents? ==> r == c.v
    ensures !c.Value? ==> r == Cents(0)
  {
    match c
    case Value(NaN) => NaN
    case Value(Cents(x)) => if x != 0 then Cents(x) else Cents(0)
    case _ => Cents(0)
  }

  /** The stored amount with every missing value (absent, `None`, NaN) counted as 0. */
  function StoredAmount(c: Cell<Number>): (r: int)
    ensures c.Value? && c.v.Cents? ==> r == c.v.cents
    ensures !(c.Value? && c.v.Cents?) ==> r == 0
  {
    match c
    case Value(Cents(x)) => x
    case _ => 0
  }

  /** `l.get("archivo")`: no key and `None` both store NULL. */
  function ArchivoField(c: Cell<string>): (r: Option<string>)
    ensures r.Some? <==> c.Value?
    ensures c.Value? ==> r == Some(c.v)
  {
    match c
    case Value(p) => Some(p)
    case _ => None
  }

  /** The detail row inserted for one line. */
  function DetalleDe(id: nat, movimientoId: nat, l: Linea): Detalle
  {
    Detalle(id, movimientoId, TextField(l.cuenta), TextField(l.descripcion),
            StoredAmount(l.debito), StoredAmount(l.credito), TextField(l.notas),
            ArchivoField(l.archivo))
  }

  /** The detail rows inserted for `lineas`, one per line in line order, ids counting up from `firstId`. */
  function DetallesDe(movimientoId: nat, firstId: nat, lineas: seq<Linea>): (r: seq<Detalle>)
    ensures |r| == |lineas|
    ensures forall k :: 0 <= k < |r| ==> r[k] == DetalleDe(firstId + k, movimientoId, lineas[k])
  {
    if lineas == [] then []
    else DetallesDe(movimientoId, firstId, lineas[..|lineas| - 1])
         + [DetalleDe(firstId + |lineas| - 1, movimientoId, lineas[|lineas| - 1])]
  }

  predicate MovIdsAscending(ms: seq<Movimiento>)
  {
    forall i, j :: 0 <= i < j < |ms| ==> ms[i].id < ms[j].id
  }

  predicate DetIdsAscending(ds: seq<Detalle>)
  {
    forall i, j :: 0 <= i < j < |ds| ==> ds[i].id < ds[j].id
  }

  function MovIds(ms: seq<Movimiento>): set<nat>
  {
    set m | m in ms :: m.id
  }

  /** The first header row with the given id. */
  function FindMovimiento(ms: seq<Movimiento>, id: nat): (r: Option<Movimiento>)
    ensures r.Some? ==> r.value in ms && r.value.id == id
    ensures r.None? ==> forall m :: m in ms ==> m.id != id
  {
    if ms == [] then None
    else if ms[0].id == id then Some(ms[0])
    else FindMovimiento(ms[1..], id)
  }

  /** `WHERE movimiento_id = %s` over the detail table, keeping table order. */
  function DetallesDeMovimiento(ds: seq<Detalle>, movimientoId: nat): (r: seq<Detalle>)
    ensures |r| <= |ds|
    ensures forall d :: d in r <==> d in ds && d.movimientoId == movimientoId
  {
    if ds == [] then []
    else
      var rest := DetallesDeMovimiento(ds[..|ds| - 1], movimientoId);
      var last := ds[|ds| - 1];
      assert ds == ds[..|ds| - 1] + [last];
      if last.movimientoId == movimientoId then rest + [last] else rest
  }

  lemma {:induction false} DetallesDeMovimientoAscending(ds: seq<Detalle>, movimientoId: nat)
    requires DetIdsAscending(ds)
    ensures DetIdsAscending(DetallesDeMovimiento(ds, movimientoId))
  {
    if ds != [] {
      var prefix := ds[..|ds| - 1];
      var last := ds[|ds| - 1];
      DetallesDeMovimientoAscending(prefix, movimientoId);
      var rest := DetallesDeMovimiento(prefix, movimientoId);
      if last.movimientoId == movimientoId {
        forall x | x in rest ensures x.id < last.id {
          var i :| 0 <= i < |prefix| && prefix[i] == x;
          assert ds[i] == x;
        }
        var r := rest + [last];
        forall i, j | 0 <= i < j < |r| ensures r[i].id < r[j].id {
          if j < |rest| {
            assert r[i] == rest[i] && r[j] == rest[j];
          } else {
            assert r[i] in rest;
          }
        }
      }
    }
  }

  predicate InRange(m: Movimiento, desde: Date, hasta: Date)
  {
    DateLe(desde, DateOf(m.fechaHora)) && DateLe(DateOf(m.fechaHora), hasta)
  }

  /** The summary columns of a header row; the listing's Estado is the constant 'OK'. */
  function ResumenDe(m: Movimiento): Resumen
  {
    Resumen(m.id, DateOf(m.fechaHora), m.cliente, m.empresa, m.banco, m.totalDebito, m.totalCredito, "OK")
  }

  /** `WHERE DATE(fecha_hora) BETWEEN desde AND hasta ORDER BY id DESC` over the header table. */
  function ResumenesEntre(ms: seq<Movimiento>, desde: Date, hasta: Date): (r: seq<Resumen>)
    ensures |r| <= |ms|
    ensures forall x :: x in r ==> DateLe(desde, x.fecha) && DateLe(x.fecha, hasta) && x.estado == "OK"
    ensures forall m :: m in ms ==> (ResumenDe(m) in r <==> InRange(m, desde, hasta))
  {
    if ms == [] then []
    else
      var prefix := ms[..|ms| - 1];
      var rest := ResumenesEntre(prefix, desde, hasta);
      var last := ms[|ms| - 1];
      assert forall m :: m in ms <==> m in prefix || m == last by {
        assert ms == prefix + [last];
      }
      if InRange(last, desde, hasta) then [ResumenDe(last)] + rest else rest
  }

  /** Every listed summary is that of a header row of the table. */
  lemma {:induction false} ResumenesEntreSound(ms: seq<Movimiento>, desde: Date, hasta: Date)
    ensures forall x :: x in ResumenesEntre(ms, desde, hasta) ==> exists m :: m in ms && x == ResumenDe(m)
  {
    if ms != [] {
      var prefix := ms[..|ms| - 1];
      ResumenesEntreSound(prefix, desde, hasta);
      assert forall m :: m in prefix ==> m in ms;
    }
  }

  /** Over a table with ascending ids, what the rows before the last one list has ids below the last one's. */
  lemma EarlierListedBelow(ms: seq<Movimiento>, desde: Date, hasta: Date)
    requires MovIdsAscending(ms) && ms != []
    ensures forall x :: x in ResumenesEntre(ms[..|ms| - 1], desde, hasta) ==> x.id < ms[|ms| - 1].id
  {
    var prefix := ms[..|ms| - 1];
    ResumenesEntreSound(prefix, desde, hasta);
    forall x | x in ResumenesEntre(prefix, desde, hasta) ensures x.id < ms[|ms| - 1].id {
      var m :| m in prefix && x == ResumenDe(m);
      var i :| 0 <= i < |prefix| && prefix[i] == m;
      assert ms[i] == m;
    }
  }

  /** Over a table with ascending ids, the listing runs from the highest id down. */
  lemma {:induction false} ResumenesEntreDescending(ms: seq<Movimiento>, desde: Date, hasta: Date)
    requires MovIdsAscending(ms)
    ensures forall i, j :: 0 <= i < j < |ResumenesEntre(ms, desde, hasta)| ==>
              ResumenesEntre(ms, desde, hasta)[i].id > ResumenesEntre(ms, desde, hasta)[j].id
  {
    if ms != [] {
      var prefix := ms[..|ms| - 1];
      var last := ms[|ms| - 1];
      var rest := ResumenesEntre(prefix, desde, hasta);
      assert MovIdsAscending(prefix);
      ResumenesEntreDescending(prefix, desde, hasta);
      EarlierListedBelow(ms, desde, hasta);
      var r := ResumenesEntre(ms, desde, hasta);
      if InRange(last, desde, hasta) {
        assert r == [ResumenDe(last)] + rest;
        forall i, j | 0 <= i < j < |r| ensures r[i].id > r[j].id {
          assert r[j] == rest[j - 1];
          if i > 0 {
            assert r[i] == rest[i - 1];
          } else {
            assert rest[j - 1] in rest;
          }
        }
      } else {
        assert r == rest;
      }
    }
  }

  lemma {:induction false} DetallesDeMovimientoAppend(a: seq<Detalle>, b: seq<Detalle>, movimientoId: nat)
    ensures DetallesDeMovimiento(a + b, movimientoId)
            == DetallesDeMovimiento(a, movimientoId) + DetallesDeMovimiento(b, movimientoId)
  {
    if b == [] {
      assert a + b == a;
    } else {
      var b' := b[..|b| - 1];
      assert (a + b)[..|a + b| - 1] == a + b';
      assert (a + b)[|a + b| - 1] == b[|b| - 1];
      DetallesDeMovimientoAppend(a, b', movimientoId);
    }
  }

  lemma {:induction false} DetallesDeMovimientoOwn(movimientoId: nat, firstId: nat, lineas: seq<Linea>)
    ensures DetallesDeMovimiento(DetallesDe(movimientoId, firstId, lineas), movimientoId)
            == DetallesDe(movimientoId, firstId, lineas)
  {
    if lineas != [] {
      var ds := DetallesDe(movimientoId, firstId, lineas);
      DetallesDeMovimientoOwn(movimientoId, firstId, lineas[..|lineas| - 1]);
      assert ds[..|ds| - 1] == DetallesDe(movimientoId, firstId, lineas[..|lineas| - 1]);
    }
  }

  lemma DetallesDeMovimientoNone(ds: seq<Detalle>, movimientoId: nat)
    requires forall d :: d in ds ==> d.movimientoId != movimientoId
    ensures DetallesDeMovimiento(ds, movimientoId) == []
  {
  }

  /**
   * Ids increase in insertion order and stay below the next AUTO_INCREMENT
   * value, and every detail row belongs to a header row.
   */
  ghost predicate TablesValid(ms: seq<Movimiento>, ds: seq<Detalle>, nextMovId: nat, nextDetId: nat)
  {
    && 1 <= nextMovId && 1 <= nextDetId
    && MovIdsAscending(ms)
    && DetIdsAscending(ds)
    && (forall m :: m in ms ==> 1 <= m.id < nextMovId)
    && (forall d :: d in ds ==> 1 <= d.id < nextDetId)
    && (forall d :: d in ds ==> d.movimientoId in MovIds(ms))
  }

  lemma InsertHeaderValid(ms: seq<Movimiento>, ds: seq<Detalle>, nextMovId: nat, nextDetId: nat, h: Movimiento)
    requires TablesValid(ms, ds, nextMovId, nextDetId) && h.id == nextMovId
    ensures TablesValid(ms + [h], ds, nextMovId + 1, nextDetId)
    ensures MovIds(ms + [h]) == MovIds(ms) + {h.id}
  {
    var ms' := ms + [h];
    assert MovIds(ms') == MovIds(ms) + {h.id} by {
      assert forall m :: m in ms' <==> m in ms || m == h;
    }
    forall i, j | 0 <= i < j < |ms'| ensures ms'[i].id < ms'[j].id {
      if j < |ms| {
        assert ms'[i] == ms[i] && ms'[j] == ms[j];
      } else {
        assert ms'[i] in ms;
      }
    }
    assert MovIdsAscending(ms');
    assert forall m :: m in ms' ==> 1 <= m.id < nextMovId + 1;
    assert forall x :: x in ds ==> x.movimientoId in MovIds(ms');
  }

  lemma InsertDetalleValid(ms: seq<Movimiento>, ds: seq<Detalle>, nextMovId: nat, nextDetId: nat, d: Detalle)
    requires TablesValid(ms, ds, nextMovId, nextDetId)
    requires d.id == nextDetId && d.movimientoId in MovIds(ms)
    ensures TablesValid(ms, ds + [d], nextMovId, nextDetId + 1)
  {
    var ds' := ds + [d];
    forall i, j | 0 <= i < j < |ds'| ensures ds'[i].id < ds'[j].id {
      if j < |ds| {
        assert ds'[i] == ds[i] && ds'[j] == ds[j];
      } else {
        assert ds'[i] in ds;
      }
    }
    assert DetIdsAscending(ds');
    assert forall x :: x in ds' <==> x in ds || x == d;
    assert forall x :: x in ds' ==> 1 <= x.id < nextDetId + 1;
    assert forall x :: x in ds' ==> x.movimientoId in MovIds(ms);
  }

  /** Appending the detail rows of a movement already in the table keeps the tables valid. */
  lemma {:induction false} InsertDetallesValid(ms: seq<Movimiento>, ds: seq<Detalle>, nextMovId: nat, nextDetId: nat,
                                               movimientoId: nat, lineas: seq<Linea>)
    requires TablesValid(ms, ds, nextMovId, nextDetId) && movimientoId in MovIds(ms)
    ensures TablesValid(ms, ds + DetallesDe(movimientoId, nextDetId, lineas), nextMovId, nextDetId + |lineas|)
    decreases |lineas|
  {
    if lineas != [] {
      var n := |lineas| - 1;
      var prefix := ds + DetallesDe(movimientoId, nextDetId, lineas[..n]);
      var row := DetalleDe(nextDetId + n, movimientoId, lineas[n]);
      InsertDetallesValid(ms, ds, nextMovId, nextDetId, movimientoId, lineas[..n]);
      InsertDetalleValid(ms, prefix, nextMovId, nextDetId + n, row);
      DetallesDeSnoc(movimientoId, nextDetId, lineas, n);
      assert lineas[..n + 1] == lineas;
      assert ds + DetallesDe(movimientoId, nextDetId, lineas) == prefix + [row];
    }
  }

  class Database {
    var movimientos: seq<Movimiento>
    var detalle: seq<Detalle>
    /** The next AUTO_INCREMENT value of each table. */
    var nextMovId: nat
    var nextDetId: nat

    /** The tables' invariant, `TablesValid`. */
    ghost predicate Valid()
      reads this
    {
      TablesValid(movimientos, detalle, nextMovId, nextDetId)
    }

    constructor ()
      ensures Valid()
      ensures movimientos == [] && detalle == []
      ensures nextMovId == 1 && nextDetId == 1
    {
      movimientos, detalle := [], [];
      nextMovId, nextDetId := 1, 1;
    }

    /** `obtener_movimiento`: the header row with that id, if any. */
    function ObtenerMovimiento(id: nat): (r: Option<Movimiento>)
      reads this
      ensures r.Some? ==> r.value in movimientos && r.value.id == id
      ensures r.None? ==> forall m :: m in movimientos ==> m.id != id
    {
      FindMovimiento(movimientos, id)
    }

    /** `listar_detalle_movimiento`: that movement's detail rows, ascending by id. */
    function ListarDetalle(movimientoId: nat): (r: seq<Detalle>)
      reads this
      requires Valid()
      ensures forall d :: d in r <==> d in detalle && d.movimientoId == movimientoId
      ensures forall i, j :: 0 <= i < j < |r| ==> r[i].id < r[j].id
    {
      DetallesDeMovimientoAscending(detalle, movimientoId);
      DetallesDeMovimiento(detalle, movimientoId)
    }

    /** `listar_movimientos`: the movements dated within [desde, hasta], highest id first. */
    function ListarMovimientos(desde: Date, hasta: Date): (r: seq<Resumen>)
      reads this
      requires Valid()
      ensures forall x :: x in r ==> DateLe(desde, x.fecha) && DateLe(x.fecha, hasta)
      ensures forall m :: m in movimientos ==> (ResumenDe(m) in r <==> InRange(m, desde, hasta))
      ensures forall x :: x in r ==> exists m :: m in movimientos && x == ResumenDe(m)
      ensures forall i, j :: 0 <= i < j < |r| ==> r[i].id > r[j].id
    {
      ResumenesEntreSound(movimientos, desde, hasta);
      ResumenesEntreDescending(movimientos, desde, hasta);
      ResumenesEntre(movimientos, desde, hasta)
    }

    /**
     * `guardar_movimiento`: converts the date-time text first and raises,
     * writing nothing, when it does not parse; otherwise inserts one header
     * row holding the totals exactly as passed, then one detail row per line
     * in line order, each pointing at the header's new id, which it returns.
     */
    method GuardarMovimiento(fechaHora: string, cliente: string, empresa: string, banco: string,
                             totalDebito: int, totalCredito: int, lineas: seq<Linea>)
      returns (r: Result<nat, DbError>)
      requires Valid()
      modifies this
      ensures Valid()
      ensures ParseDisplay(fechaHora).None? ==> r == Failure(FechaInvalida) && unchanged(this)
      ensures ParseDisplay(fechaHora).Some? ==>
        && r == Success(old(nextMovId))
        && movimientos == old(movimientos) + [Movimiento(old(nextMovId), ParseDisplay(fechaHora).value,
                                                         cliente, empresa, banco, totalDebito, totalCredito)]
        && detalle == old(detalle) + DetallesDe(old(nextMovId), old(nextDetId), lineas)
        && nextMovId == old(nextMovId) + 1
        && nextDetId == old(nextDetId) + |lineas|
      ensures r.Success? ==> ObtenerMovimiento(r.value) == Some(movimientos[|movimientos| - 1])
      ensures r.Success? ==> ListarDetalle(r.value) == DetallesDe(r.value, old(nextDetId), lineas)
    {
      var parsed := ParseDisplay(fechaHora);
      if parsed.None? {
        return Failure(FechaInvalida);
      }
      var id := InsertarMovimiento(parsed.value, cliente, empresa, banco, totalDebito, totalCredito, lineas);
      ListingOfNewMovement(old(movimientos), old(detalle), id, old(nextDetId), lineas);
      FindAfterAppend(old(movimientos), movimientos[|movimientos| - 1]);
      r := Success(id);
    }

    /** The two inserts of `guardar_movimiento` once the date-time has been converted. */
    method InsertarMovimiento(fecha: DateTime, cliente: string, empresa: string, banco: string,
                              totalDebito: int, totalCredito: int, lineas: seq<Linea>)
      returns (movimientoId: nat)
      requires Valid()
      modifies this
      ensures Valid()
      ensures movimientoId == old(nextMovId)
      ensures movimientos == old(movimientos) + [Movimiento(movimientoId, fecha, cliente, empresa, banco, totalDebito, totalCredito)]
      ensures detalle == old(detalle) + DetallesDe(movimientoId, old(nextDetId), lineas)
      ensures nextMovId == old(nextMovId) + 1 && nextDetId == old(nextDetId) + |lineas|
    {
      movimientoId := nextMovId;
      var header := Movimiento(movimientoId, fecha, cliente, empresa, banco, totalDebito, totalCredito);
      InsertHeaderValid(movimientos, detalle, nextMovId, nextDetId, header);
      var heads, nextHead := movimientos + [header], nextMovId + 1;

      var rows := DetallesNuevos(movimientoId, nextDetId, lineas);
      InsertDetallesValid(heads, detalle, nextHead, nextDetId, movimientoId, lineas);
      detalle, nextDetId := detalle + rows, nextDetId + |lineas|;
      movimientos, nextMovId := heads, nextHead;
    }
  }

  /** The detail inserts of `guardar_movimiento`, one per line, numbered from `firstId` on. */
  method DetallesNuevos(movimientoId: nat, firstId: nat, lineas: seq<Linea>) returns (rows: seq<Detalle>)
    ensures rows == DetallesDe(movimientoId, firstId, lineas)
  {
    rows := [];
    var k := 0;
    while k < |lineas|
      invariant 0 <= k <= |lineas|
      invariant rows == DetallesDe(movimientoId, firstId, lineas[..k])
    {
      DetallesDeSnoc(movimientoId, firstId, lineas, k);
      rows := rows + [DetalleDe(firstId + k, movimientoId, lineas[k])];
      k := k + 1;
    }
    assert lineas[..k] == lineas;
  }

  /** One more line of the loop adds exactly one detail row, numbered after the previous ones. */
  lemma DetallesDeSnoc(movimientoId: nat, firstId: nat, lineas: seq<Linea>, k: nat)
    requires k < |lineas|
    ensures DetallesDe(movimientoId, firstId, lineas[..k + 1])
            == DetallesDe(movimientoId, firstId, lineas[..k]) + [DetalleDe(firstId + k, movimientoId, lineas[k])]
  {
    assert lineas[..k + 1][..k] == lineas[..k];
  }

  /** A movement saved under a fresh id lists exactly its own detail rows. */
  lemma ListingOfNewMovement(ms: seq<Movimiento>, ds: seq<Detalle>, movimientoId: nat, firstId: nat, lineas: seq<Linea>)
    requires TablesValid(ms, ds, movimientoId, firstId)
    ensures DetallesDeMovimiento(ds + DetallesDe(movimientoId, firstId, lineas), movimientoId)
            == DetallesDe(movimientoId, firstId, lineas)
  {
    forall d | d in ds ensures d.movimientoId != movimientoId {
      var m :| m in ms && m.id == d.movimientoId;
    }
    DetallesDeMovimientoAppend(ds, DetallesDe(movimientoId, firstId, lineas), movimientoId);
    DetallesDeMovimientoNone(ds, movimientoId);
    DetallesDeMovimientoOwn(movimientoId, firstId, lineas);
  }

  lemma {:induction false} FindAfterAppend(ms: seq<Movimiento>, h: Movimiento)
    requires forall m :: m in ms ==> m.id != h.id
    ensures FindMovimiento(ms + [h], h.id) == Some(h)
  {
    if ms != [] {
      assert (ms + [h])[1..] == ms[1..] + [h];
      FindAfterAppend(ms[1..], h);
    }
  }
}
