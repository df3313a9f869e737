/** The park controller's occupancy ledger and allocation engine, stated as
    pure functions over values.  Hours are real clock hours 7..19; slot
    `Idx(h)` of the ledger holds the people present during hour `h`, and a
    party admitted at hour `h` occupies the slots of `h` and `h + 1`. */
module Agenda {

  /** Number of hour slots in the ledger (7:00 to 19:00). */
  const MaxHoras := 13
  /** The hour held by slot 0. */
  const HoraBase := 7
  /** The last hour that has a slot, and the upper end of the request range check. */
  const HoraTope := 19
  /** Starting value of the running minimum in the final report. */
  const MinInicial := 99999

  /** One admitted party, as recorded in both of its slots. */
  datatype Familia = Familia(nombre: string, personas: int)

  /** The startup parameters the core consumes. */
  datatype Parametros = Parametros(horaIni: int, horaFin: int, aforoMax: int) {
    /** The startup check: the controller refuses to start otherwise. */
    predicate Validos() {
      HoraBase <= horaIni < horaFin <= HoraTope && aforoMax > 0
    }
  }

  /** The ledger: a count and a list of parties per slot. */
  datatype Reservas = Reservas(personas: seq<int>, familias: seq<seq<Familia>>) {
    predicate Valid() {
      |personas| == MaxHoras && |familias| == MaxHoras
    }
  }

  /** The three outcome counters. */
  datatype Estadisticas = Estadisticas(aceptadas: int, reprogramadas: int, negadas: int)

  datatype MotivoReprogramacion = Extemporanea | SinCupoEn(solicitada: int)
  datatype MotivoNegacion = ExcedeAforo | FueraDeRango | SinCupoHoy | ParqueLleno

  /** Every reply the controller sends to an agent. */
  datatype Respuesta =
    | HoraActual(hora: int)
    | Aceptada(hora: int)
    | Reprogramada(motivo: MotivoReprogramacion, hora: int)
    | Negada(razon: MotivoNegacion)

  /** The outcome of one reservation request: the reply and the new ledger. */
  datatype Decision = Decision(respuesta: Respuesta, libro: Reservas)

  function Idx(hora: int): int {
    hora - HoraBase
  }

  function Min(a: int, b: int): int {
    if a < b then a else b
  }

  /** The ledger at startup: every count zero, every list empty. */
  function Vacio(): (r: Reservas)
    ensures r.Valid()
    ensures forall i :: 0 <= i < MaxHoras ==> r.personas[i] == 0 && r.familias[i] == []
  {
    Reservas(seq(MaxHoras, _ => 0), seq(MaxHoras, _ => []))
  }

  /** Total number of people in a list of parties. */
  function Total(fs: seq<Familia>): int {
    if fs == [] then 0 else fs[0].personas + Total(fs[1..])
  }

  lemma {:induction false} TotalAnexar(fs: seq<Familia>, f: Familia)
    ensures Total(fs + [f]) == Total(fs) + f.personas
  {
    if fs == [] {
      assert [f][1..] == [];
    } else {
      assert (fs + [f])[1..] == fs[1..] + [f];
      TotalAnexar(fs[1..], f);
    }
  }

  /** The safety invariant: no slot holds more people than the ceiling. */
  predicate DentroDeAforo(l: Reservas, aforo: int)
    requires l.Valid()
  {
    forall i :: 0 <= i < MaxHoras ==> l.personas[i] <= aforo
  }

  /** Every slot's count is the total size of the parties recorded at it. */
  predicate Coherente(l: Reservas)
    requires l.Valid()
  {
    forall i :: 0 <= i < MaxHoras ==> l.personas[i] == Total(l.familias[i])
  }

  lemma VacioCumpleInvariantes(aforo: int)
    requires aforo >= 0
    ensures DentroDeAforo(Vacio(), aforo) && Coherente(Vacio())
  {
  }

  /** Whether `n` more people fit at `hora` (they stay for `hora` and `hora + 1`). */
  predicate Cabe(par: Parametros, l: Reservas, hora: int, n: int)
    requires par.Validos() && l.Valid() && hora >= HoraBase
    ensures Cabe(par, l, hora, n) ==> hora < par.horaFin
  {
    if hora + 1 > par.horaFin then false
    else
      var i := Idx(hora);
      l.personas[i] + n <= par.aforoMax && l.personas[i + 1] + n <= par.aforoMax
  }

  /** Admits party `nombre` of size `n` at `hora`: both of its slots grow by `n`
      and record the party; no other slot changes. */
  function Agregar(l: Reservas, hora: int, n: int, nombre: string): (r: Reservas)
    requires l.Valid() && HoraBase <= hora < HoraTope
    ensures r.Valid()
    ensures forall i :: 0 <= i < MaxHoras ==>
      r.personas[i] == l.personas[i] + (if i == Idx(hora) || i == Idx(hora) + 1 then n else 0)
    ensures forall i :: 0 <= i < MaxHoras ==>
      r.familias[i] == l.familias[i] + (if i == Idx(hora) || i == Idx(hora) + 1 then [Familia(nombre, n)] else [])
  {
    var i := Idx(hora);
    var f := Familia(nombre, n);
    Reservas(l.personas[i := l.personas[i] + n][i + 1 := l.personas[i + 1] + n],
             l.familias[i := l.familias[i] + [f]][i + 1 := l.familias[i + 1] + [f]])
  }

  /** An hour is available exactly when it is before the closing hour and
      admitting the party there keeps every slot within the ceiling. */
  lemma CabeSiYSoloSiAdmisible(par: Parametros, l: Reservas, hora: int, n: int, nombre: string)
    requires par.Validos() && l.Valid() && hora >= HoraBase && DentroDeAforo(l, par.aforoMax)
    ensures Cabe(par, l, hora, n) <==>
      hora < par.horaFin && DentroDeAforo(Agregar(l, hora, n, nombre), par.aforoMax)
  {
    if hora < par.horaFin && DentroDeAforo(Agregar(l, hora, n, nombre), par.aforoMax) {
      var r := Agregar(l, hora, n, nombre);
      assert r.personas[Idx(hora)] <= par.aforoMax;
      assert r.personas[Idx(hora) + 1] <= par.aforoMax;
    }
  }

  /** Admitting at an available hour keeps the ceiling and keeps the counts
      in agreement with the recorded parties. */
  lemma AgregarPreservaInvariantes(par: Parametros, l: Reservas, hora: int, n: int, nombre: string)
    requires par.Validos() && l.Valid() && hora >= HoraBase && Cabe(par, l, hora, n)
    ensures DentroDeAforo(l, par.aforoMax) ==> DentroDeAforo(Agregar(l, hora, n, nombre), par.aforoMax)
    ensures Coherente(l) ==> Coherente(Agregar(l, hora, n, nombre))
  {
    if Coherente(l) {
      var r := Agregar(l, hora, n, nombre);
      forall i | 0 <= i < MaxHoras
        ensures r.personas[i] == Total(r.familias[i])
      {
        if i == Idx(hora) || i == Idx(hora) + 1 {
          TotalAnexar(l.familias[i], Familia(nombre, n));
        }
      }
    }
  }

  /** The first available hour in `lo..hi`, or -1 when there is none. */
  function Primera(par: Parametros, l: Reservas, n: int, lo: int, hi: int): (r: int)
    requires par.Validos() && l.Valid() && lo >= HoraBase
    ensures r == -1 || (lo <= r <= hi && Cabe(par, l, r, n))
    ensures forall h :: lo <= h <= hi && (r == -1 || h < r) ==> !Cabe(par, l, h, n)
    decreases hi - lo
  {
    if lo > hi then -1
    else if Cabe(par, l, lo, n) then lo
    else Primera(par, l, n, lo + 1, hi)
  }

  /** The alternative-hour search: forward from `desde` to the last hour that
      has a successor, then from the opening hour up to `desde`. */
  function Alternativa(par: Parametros, l: Reservas, n: int, desde: int): (r: int)
    requires par.Validos() && l.Valid() && desde >= HoraBase
    ensures r == -1 || ((desde <= r || par.horaIni <= r) && r < par.horaFin && Cabe(par, l, r, n))
    ensures desde <= r ==> forall h :: desde <= h < r ==> !Cabe(par, l, h, n)
    ensures r < desde ==> forall h :: desde <= h < par.horaFin ==> !Cabe(par, l, h, n)
    ensures r < desde ==> forall h :: par.horaIni <= h < desde && (r == -1 || h < r) ==> !Cabe(par, l, h, n)
  {
    var ultima := par.horaFin - 1;
    var adelante := Primera(par, l, n, desde, ultima);
    if adelante != -1 then adelante
    else Primera(par, l, n, par.horaIni, Min(desde - 1, ultima))
  }

  /** Starting at or after the opening hour, the search fails only when no
      hour of the day is available. */
  lemma AlternativaFallaSoloSinCupo(par: Parametros, l: Reservas, n: int, desde: int)
    requires par.Validos() && l.Valid() && desde >= par.horaIni
    ensures Alternativa(par, l, n, desde) == -1 <==>
      forall h :: par.horaIni <= h < par.horaFin ==> !Cabe(par, l, h, n)
  {
    var r := Alternativa(par, l, n, desde);
    if r != -1 {
      assert par.horaIni <= r < par.horaFin && Cabe(par, l, r, n);
    }
  }

  /** The allocation engine: checks in the controller's order and the reply
      with the ledger it leaves.  The ledger changes only when the party is
      admitted, and then exactly by admitting it at the hour in the reply,
      which was available. */
  function Decidir(par: Parametros, horaActual: int, l: Reservas, familia: string, horaSol: int, n: int): (d: Decision)
    requires par.Validos() && l.Valid() && par.horaIni <= horaActual
    ensures d.libro.Valid() && !d.respuesta.HoraActual?
    ensures d.respuesta.Negada? ==> d.libro == l
    ensures !d.respuesta.Negada? ==>
      && par.horaIni <= d.respuesta.hora < par.horaFin
      && Cabe(par, l, d.respuesta.hora, n)
      && d.libro == Agregar(l, d.respuesta.hora, n, familia)
  {
    if n > par.aforoMax then Decision(Negada(ExcedeAforo), l)
    else if horaSol < HoraBase || horaSol > HoraTope then Decision(Negada(FueraDeRango), l)
    else if horaSol < horaActual then
      var alt := Alternativa(par, l, n, horaActual);
      if alt != -1 then Decision(Reprogramada(Extemporanea, alt), Agregar(l, alt, n, familia))
      else Decision(Negada(SinCupoHoy), l)
    else if Cabe(par, l, horaSol, n) then
      Decision(Aceptada(horaSol), Agregar(l, horaSol, n, familia))
    else
      var alt := Alternativa(par, l, n, horaSol);
      if alt != -1 then Decision(Reprogramada(SinCupoEn(horaSol), alt), Agregar(l, alt, n, familia))
      else Decision(Negada(ParqueLleno), l)
  }

  /** Every decision keeps the ceiling and the count/party agreement. */
  lemma DecidirPreservaInvariantes(par: Parametros, horaActual: int, l: Reservas, familia: string, horaSol: int, n: int)
    requires par.Validos() && l.Valid() && par.horaIni <= horaActual
    ensures var d := Decidir(par, horaActual, l, familia, horaSol, n);
      && (DentroDeAforo(l, par.aforoMax) ==> DentroDeAforo(d.libro, par.aforoMax))
      && (Coherente(l) ==> Coherente(d.libro))
  {
    var d := Decidir(par, horaActual, l, familia, horaSol, n);
    if !d.respuesta.Negada? {
      AgregarPreservaInvariantes(par, l, d.respuesta.hora, n, familia);
    }
  }

  /** A request within size and range is accepted exactly when it is not late
      and its own hour is available; then it is accepted at that hour. */
  lemma DecidirAceptaSiCabe(par: Parametros, horaActual: int, l: Reservas, familia: string, horaSol: int, n: int)
    requires par.Validos() && l.Valid() && par.horaIni <= horaActual
    ensures var d := Decidir(par, horaActual, l, familia, horaSol, n);
      d.respuesta.Aceptada? <==>
        n <= par.aforoMax && HoraBase <= horaSol <= HoraTope && horaActual <= horaSol
        && Cabe(par, l, horaSol, n)
    ensures Decidir(par, horaActual, l, familia, horaSol, n).respuesta.Aceptada? ==>
      Decidir(par, horaActual, l, familia, horaSol, n).respuesta.hora == horaSol
    ensures Decidir(par, horaActual, l, familia, par.horaFin, n).respuesta != Aceptada(par.horaFin)
  {
  }

  /** A request is denied exactly when it is too big, out of the 7..19 range,
      or no hour of the day can take it; oversize is checked first, and the
      reply names the check that failed. */
  lemma DecidirNiegaSoloSinCupo(par: Parametros, horaActual: int, l: Reservas, familia: string, horaSol: int, n: int)
    requires par.Validos() && l.Valid() && par.horaIni <= horaActual
    ensures var d := Decidir(par, horaActual, l, familia, horaSol, n);
      d.respuesta.Negada? <==>
        n > par.aforoMax || horaSol < HoraBase || horaSol > HoraTope
        || forall h :: par.horaIni <= h < par.horaFin ==> !Cabe(par, l, h, n)
    ensures n > par.aforoMax ==>
      Decidir(par, horaActual, l, familia, horaSol, n).respuesta == Negada(ExcedeAforo)
    ensures n <= par.aforoMax && (horaSol < HoraBase || horaSol > HoraTope) ==>
      Decidir(par, horaActual, l, familia, horaSol, n).respuesta == Negada(FueraDeRango)
    ensures (n <= par.aforoMax && HoraBase <= horaSol <= HoraTope && horaSol < horaActual
             && Alternativa(par, l, n, horaActual) == -1) ==>
      Decidir(par, horaActual, l, familia, horaSol, n).respuesta == Negada(SinCupoHoy)
    ensures (n <= par.aforoMax && HoraBase <= horaSol <= HoraTope && horaActual <= horaSol
             && !Cabe(par, l, horaSol, n) && Alternativa(par, l, n, horaSol) == -1) ==>
      Decidir(par, horaActual, l, familia, horaSol, n).respuesta == Negada(ParqueLleno)
  {
    var d := Decidir(par, horaActual, l, familia, horaSol, n);
    if n <= par.aforoMax && HoraBase <= horaSol <= HoraTope {
      if horaSol < horaActual {
        AlternativaFallaSoloSinCupo(par, l, n, horaActual);
      } else if !Cabe(par, l, horaSol, n) {
        AlternativaFallaSoloSinCupo(par, l, n, horaSol);
      } else {
        assert par.horaIni <= horaSol < par.horaFin;
      }
    }
  }

  /** A rescheduled request gets the first available hour in the search order:
      from the current hour for a late request, from the requested hour when
      that hour is full; hours before the start are used only when nothing
      later is available. */
  lemma DecidirOrdenDeBusqueda(par: Parametros, horaActual: int, l: Reservas, familia: string, horaSol: int, n: int)
    requires par.Validos() && l.Valid() && par.horaIni <= horaActual
    requires Decidir(par, horaActual, l, familia, horaSol, n).respuesta.Reprogramada?
    ensures var d := Decidir(par, horaActual, l, familia, horaSol, n);
      var alt := d.respuesta.hora;
      var desde := if d.respuesta.motivo.Extemporanea? then horaActual else horaSol;
      && (d.respuesta.motivo.Extemporanea? <==> horaSol < horaActual)
      && (d.respuesta.motivo.SinCupoEn? ==>
            d.respuesta.motivo.solicitada == horaSol && !Cabe(par, l, horaSol, n) && alt != horaSol)
      && Cabe(par, l, alt, n)
      && (desde <= alt ==> forall h :: desde <= h < alt ==> !Cabe(par, l, h, n))
      && (alt < desde ==>
            && par.horaIni <= alt
            && (forall h :: desde <= h < par.horaFin ==> !Cabe(par, l, h, n))
            && (forall h :: par.horaIni <= h < alt ==> !Cabe(par, l, h, n)))
  {
  }

  /** Adds one to the counter that matches the reply. */
  function Contar(s: Estadisticas, r: Respuesta): (t: Estadisticas)
    ensures Suma(t) == Suma(s) + (if r.HoraActual? then 0 else 1)
    ensures t.aceptadas >= s.aceptadas && t.reprogramadas >= s.reprogramadas && t.negadas >= s.negadas
  {
    match r
    case Aceptada(_) => s.(aceptadas := s.aceptadas + 1)
    case Reprogramada(_, _) => s.(reprogramadas := s.reprogramadas + 1)
    case Negada(_) => s.(negadas := s.negadas + 1)
    case HoraActual(_) => s
  }

  function Suma(s: Estadisticas): int {
    s.aceptadas + s.reprogramadas + s.negadas
  }

  /** Each decided request bumps exactly one counter, by one: the one that
      matches its reply. */
  lemma DecidirCuentaUnaVez(par: Parametros, horaActual: int, l: Reservas, familia: string, horaSol: int, n: int, s: Estadisticas)
    requires par.Validos() && l.Valid() && par.horaIni <= horaActual
    ensures var r := Decidir(par, horaActual, l, familia, horaSol, n).respuesta;
      var t := Contar(s, r);
      && Suma(t) == Suma(s) + 1
      && t.aceptadas >= s.aceptadas && t.reprogramadas >= s.reprogramadas && t.negadas >= s.negadas
      && (t.aceptadas > s.aceptadas <==> r.Aceptada?)
      && (t.reprogramadas > s.reprogramadas <==> r.Reprogramada?)
      && (t.negadas > s.negadas <==> r.Negada?)
  {
  }

  /** The eviction on a clock tick at `horaActual`: when the slot two hours back
      holds people, that slot and the following one are emptied. */
  function Desalojar(par: Parametros, l: Reservas, horaActual: int): (r: Reservas)
    requires par.Validos() && l.Valid() && horaActual <= par.horaFin + 1
    ensures r.Valid()
    ensures horaActual < par.horaIni + 2 || l.personas[Idx(horaActual - 2)] <= 0 ==> r == l
    ensures horaActual >= par.horaIni + 2 && l.personas[Idx(horaActual - 2)] > 0 ==>
      forall j :: 0 <= j < MaxHoras ==>
        var sale := j == Idx(horaActual - 2) || j == Idx(horaActual - 1);
        && r.personas[j] == (if sale then 0 else l.personas[j])
        && r.familias[j] == (if sale then [] else l.familias[j])
  {
    if horaActual < par.horaIni + 2 then l
    else
      var i := Idx(horaActual - 2);
      if 0 <= i < MaxHoras && l.personas[i] > 0 then
        Reservas(l.personas[i := 0][i + 1 := 0], l.familias[i := []][i + 1 := []])
      else l
  }

  lemma DesalojarPreservaInvariantes(par: Parametros, l: Reservas, horaActual: int)
    requires par.Validos() && l.Valid() && horaActual <= par.horaFin + 1
    ensures DentroDeAforo(l, par.aforoMax) ==> DentroDeAforo(Desalojar(par, l, horaActual), par.aforoMax)
    ensures Coherente(l) ==> Coherente(Desalojar(par, l, horaActual))
  {
  }

  /** The eviction also empties the slot after the departing one, so a party
      admitted one hour before the tick keeps its record at the current hour
      but loses it at its own arrival hour. */
  lemma DesalojoParteLaReservaSiguiente(par: Parametros, l: Reservas, horaActual: int, nombre: string, n: int)
    requires par.Validos() && l.Valid()
    requires par.horaIni + 2 <= horaActual <= par.horaFin && l.personas[Idx(horaActual - 2)] > 0
    ensures var r := Desalojar(par, Agregar(l, horaActual - 1, n, nombre), horaActual);
      && Familia(nombre, n) in r.familias[Idx(horaActual)]
      && Familia(nombre, n) !in r.familias[Idx(horaActual - 1)]
  {
    var a := Agregar(l, horaActual - 1, n, nombre);
    assert a.personas[Idx(horaActual - 2)] == l.personas[Idx(horaActual - 2)];
    var r := Desalojar(par, a, horaActual);
    assert r.familias[Idx(horaActual)] == l.familias[Idx(horaActual)] + [Familia(nombre, n)];
  }

  /** The largest of `inicial` and the counts of hours `lo..hi`. */
  function Maximo(p: seq<int>, lo: int, hi: int, inicial: int): (m: int)
    requires |p| == MaxHoras && HoraBase <= lo && hi <= HoraTope
    ensures m >= inicial
    ensures forall h :: lo <= h <= hi ==> p[Idx(h)] <= m
    ensures m == inicial || exists h :: lo <= h <= hi && p[Idx(h)] == m
    decreases hi - lo
  {
    if hi < lo then inicial
    else
      var m := Maximo(p, lo, hi - 1, inicial);
      if p[Idx(hi)] > m then p[Idx(hi)] else m
  }

  /** The smallest of `inicial` and the counts of hours `lo..hi`. */
  function Minimo(p: seq<int>, lo: int, hi: int, inicial: int): (m: int)
    requires |p| == MaxHoras && HoraBase <= lo && hi <= HoraTope
    ensures m <= inicial
    ensures forall h :: lo <= h <= hi ==> m <= p[Idx(h)]
    ensures m == inicial || exists h :: lo <= h <= hi && p[Idx(h)] == m
    decreases hi - lo
  {
    if hi < lo then inicial
    else
      var m := Minimo(p, lo, hi - 1, inicial);
      if p[Idx(hi)] < m then p[Idx(hi)] else m
  }

  /** The hours of `lo..hi` whose count is `v`, in ascending order. */
  function HorasCon(p: seq<int>, lo: int, hi: int, v: int): (r: seq<int>)
    requires |p| == MaxHoras && HoraBase <= lo && hi <= HoraTope
    ensures |r| <= if hi < lo then 0 else hi - lo + 1
    decreases hi - lo
  {
    if hi < lo then []
    else HorasCon(p, lo, hi - 1, v) + (if p[Idx(hi)] == v then [hi] else [])
  }

  /** The list holds exactly the hours of `lo..hi` whose count is `v`, each
      once, in ascending order. */
  lemma {:induction false} HorasConSignificado(p: seq<int>, lo: int, hi: int, v: int)
    requires |p| == MaxHoras && HoraBase <= lo && hi <= HoraTope
    ensures var r := HorasCon(p, lo, hi, v);
      && (forall h :: h in r <==> lo <= h <= hi && p[Idx(h)] == v)
      && (forall a, b :: 0 <= a < b < |r| ==> r[a] < r[b])
    decreases hi - lo
  {
    if hi >= lo {
      HorasConSignificado(p, lo, hi - 1, v);
      var antes := HorasCon(p, lo, hi - 1, v);
      var r := antes + (if p[Idx(hi)] == v then [hi] else []);
      assert HorasCon(p, lo, hi, v) == r;
      forall a, b | 0 <= a < b < |r|
        ensures r[a] < r[b]
      {
        if b >= |antes| {
          assert r[a] == antes[a] && antes[a] in antes;
        }
      }
    }
  }

  lemma {:induction false} HorasConVacia(p: seq<int>, lo: int, hi: int, v: int)
    requires |p| == MaxHoras && HoraBase <= lo && hi <= HoraTope
    requires forall h :: lo <= h <= hi ==> p[Idx(h)] != v
    ensures HorasCon(p, lo, hi, v) == []
    decreases hi - lo
  {
    if hi >= lo {
      HorasConVacia(p, lo, hi - 1, v);
    }
  }

  /** One step of the report's running maximum and its list of hours. */
  lemma PasoMaximo(p: seq<int>, lo: int, h: int, inicial: int, m: int, horas: seq<int>)
    requires |p| == MaxHoras && HoraBase <= lo <= h <= HoraTope
    requires m == Maximo(p, lo, h - 1, inicial) && horas == HorasCon(p, lo, h - 1, m)
    ensures var m2 := if p[Idx(h)] > m then p[Idx(h)] else m;
      var horas2 := (if p[Idx(h)] > m then [] else horas) + (if p[Idx(h)] == m2 then [h] else []);
      m2 == Maximo(p, lo, h, inicial) && horas2 == HorasCon(p, lo, h, m2)
  {
    var x := p[Idx(h)];
    assert Maximo(p, lo, h, inicial) == if x > m then x else m;
    if x > m {
      assert forall k :: lo <= k <= h - 1 ==> p[Idx(k)] != x;
      HorasConVacia(p, lo, h - 1, x);
      assert HorasCon(p, lo, h, x) == HorasCon(p, lo, h - 1, x) + [h];
    } else {
      assert HorasCon(p, lo, h, m) == horas + (if x == m then [h] else []);
    }
  }

  /** One step of the report's running minimum and its list of hours. */
  lemma PasoMinimo(p: seq<int>, lo: int, h: int, inicial: int, m: int, horas: seq<int>)
    requires |p| == MaxHoras && HoraBase <= lo <= h <= HoraTope
    requires m == Minimo(p, lo, h - 1, inicial) && horas == HorasCon(p, lo, h - 1, m)
    ensures var m2 := if p[Idx(h)] < m then p[Idx(h)] else m;
      var horas2 := (if p[Idx(h)] < m then [] else horas) + (if p[Idx(h)] == m2 then [h] else []);
      m2 == Minimo(p, lo, h, inicial) && horas2 == HorasCon(p, lo, h, m2)
  {
    var x := p[Idx(h)];
    assert Minimo(p, lo, h, inicial) == if x < m then x else m;
    if x < m {
      assert forall k :: lo <= k <= h - 1 ==> p[Idx(k)] != x;
      HorasConVacia(p, lo, h - 1, x);
      assert HorasCon(p, lo, h, x) == HorasCon(p, lo, h - 1, x) + [h];
    } else {
      assert HorasCon(p, lo, h, m) == horas + (if x == m then [h] else []);
    }
  }
}
