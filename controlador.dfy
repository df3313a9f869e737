/** The controller process: its global state, the clock tick and the handling
    of one inbound message, each a region the controller runs under its single
    mutex and therefore modelled as one atomic step. */
module Controlador {
  import opened Agenda
  import opened Mensajes

  datatype Option<T> = None | Some(value: T)

  /** A reply and the agent channel it is written to. */
  datatype Envio = Envio(destino: string, respuesta: Respuesta)

  /** The controller's shared state as a value: clock, end flag, ledger, tally. */
  datatype Global = Global(horaActual: int, terminar: bool, libro: Reservas, stats: Estadisticas)

  /** The state after one step, with the reply it sends, if any. */
  datatype Paso = Paso(estado: Global, envio: Option<Envio>)

  predicate GlobalValido(par: Parametros, g: Global) {
    && par.Validos()
    && g.libro.Valid()
    && par.horaIni <= g.horaActual <= par.horaFin + 1
    && (g.terminar <==> g.horaActual > par.horaFin)
  }

  /** The state the controller starts in. */
  function Inicial(par: Parametros): (g: Global)
    requires par.Validos()
    ensures GlobalValido(par, g)
    ensures g.horaActual == par.horaIni && !g.terminar
    ensures DentroDeAforo(g.libro, par.aforoMax) && Coherente(g.libro)
  {
    Global(par.horaIni, false, Vacio(), Estadisticas(0, 0, 0))
  }

  /** The channel a request's reply goes to. */
  function CanalAgente(agente: string): string {
    "/tmp/pipe_" + agente
  }

  /** Handling of one inbound message. */
  function Atender(par: Parametros, g: Global, buf: string): (r: Paso)
    requires GlobalValido(par, g)
    ensures GlobalValido(par, r.estado)
    ensures r.estado.horaActual == g.horaActual && r.estado.terminar == g.terminar
  {
    match Clasificar(buf)
    case Descartado => Paso(g, None)
    case Registro(_, direccion) => Paso(g, Some(Envio(direccion, HoraActual(g.horaActual))))
    case Solicitud(agente, familia, hora, personas) =>
      var d := Decidir(par, g.horaActual, g.libro, familia, hora, personas);
      Paso(g.(libro := d.libro, stats := Contar(g.stats, d.respuesta)),
           Some(Envio(CanalAgente(agente), d.respuesta)))
  }

  /** One clock tick: eviction, then the clock moves on by one hour. */
  function Avanzar(par: Parametros, g: Global): (r: Global)
    requires GlobalValido(par, g) && !g.terminar
    ensures GlobalValido(par, r)
  {
    var hora := g.horaActual + 1;
    g.(libro := Desalojar(par, g.libro, g.horaActual), horaActual := hora, terminar := hora > par.horaFin)
  }

  /** What a message does to the state: a dropped message changes nothing and
      gets no reply, a registration changes nothing and gets the current hour,
      and only a request moves the tally, by exactly one. */
  lemma AtenderEfectos(par: Parametros, g: Global, buf: string)
    requires GlobalValido(par, g)
    ensures var r := Atender(par, g, buf);
      && GlobalValido(par, r.estado)
      && (r.envio == None <==> Clasificar(buf) == Descartado)
      && (!Clasificar(buf).Solicitud? ==> r.estado == g)
      && (Clasificar(buf).Registro? ==> r.envio == Some(Envio(Clasificar(buf).direccion, HoraActual(g.horaActual))))
      && r.estado.horaActual == g.horaActual && r.estado.terminar == g.terminar
      && Suma(r.estado.stats) == Suma(g.stats) + (if Clasificar(buf).Solicitud? then 1 else 0)
  {
    match Clasificar(buf)
    case Descartado =>
    case Registro(_, _) =>
    case Solicitud(agente, familia, hora, personas) =>
      DecidirCuentaUnaVez(par, g.horaActual, g.libro, familia, hora, personas, g.stats);
  }

  /** No message takes a slot over the ceiling or breaks the agreement of
      counts and recorded parties. */
  lemma AtenderPreservaInvariantes(par: Parametros, g: Global, buf: string)
    requires GlobalValido(par, g)
    ensures var r := Atender(par, g, buf);
      && (DentroDeAforo(g.libro, par.aforoMax) ==> DentroDeAforo(r.estado.libro, par.aforoMax))
      && (Coherente(g.libro) ==> Coherente(r.estado.libro))
  {
    match Clasificar(buf)
    case Descartado =>
    case Registro(_, _) =>
    case Solicitud(agente, familia, hora, personas) =>
      DecidirPreservaInvariantes(par, g.horaActual, g.libro, familia, hora, personas);
  }

  /** A tick moves the clock by exactly one hour, ends the run exactly when the
      new hour is past the closing hour, leaves the tally alone and keeps the
      ledger invariants. */
  lemma AvanzarEfectos(par: Parametros, g: Global)
    requires GlobalValido(par, g) && !g.terminar
    ensures var r := Avanzar(par, g);
      && GlobalValido(par, r)
      && r.horaActual == g.horaActual + 1
      && (r.terminar <==> r.horaActual > par.horaFin)
      && r.stats == g.stats
      && r.libro == Desalojar(par, g.libro, g.horaActual)
      && (DentroDeAforo(g.libro, par.aforoMax) ==> DentroDeAforo(r.libro, par.aforoMax))
      && (Coherente(g.libro) ==> Coherente(r.libro))
  {
    DesalojarPreservaInvariantes(par, g.libro, g.horaActual);
  }

  /** One event the controller serialises under its mutex. */
  datatype Evento = Tick | Llega(buf: string)

  /** A run: the events applied in order; a tick after the end does nothing,
      since no alarm is pending any more. */
  function Ejecutar(par: Parametros, g: Global, eventos: seq<Evento>): (r: Global)
    requires GlobalValido(par, g)
    ensures GlobalValido(par, r)
    decreases |eventos|
  {
    if eventos == [] then g
    else
      var siguiente :=
        match eventos[0]
        case Tick => if g.terminar then g else Avanzar(par, g)
        case Llega(buf) => Atender(par, g, buf).estado;
      Ejecutar(par, siguiente, eventos[1..])
  }

  /** Number of request messages in a run. */
  function Solicitudes(eventos: seq<Evento>): nat {
    if eventos == [] then 0
    else (if eventos[0].Llega? && Clasificar(eventos[0].buf).Solicitud? then 1 else 0)
         + Solicitudes(eventos[1..])
  }

  /** Over any interleaving of ticks and messages: no slot ever exceeds the
      ceiling, counts agree with the recorded parties, the clock never goes
      back, and the tally grows by exactly the number of requests. */
  lemma {:induction false} EjecutarInvariantes(par: Parametros, g: Global, eventos: seq<Evento>)
    requires GlobalValido(par, g) && DentroDeAforo(g.libro, par.aforoMax) && Coherente(g.libro)
    ensures var r := Ejecutar(par, g, eventos);
      && DentroDeAforo(r.libro, par.aforoMax) && Coherente(r.libro)
      && r.horaActual >= g.horaActual
      && Suma(r.stats) == Suma(g.stats) + Solicitudes(eventos)
    decreases |eventos|
  {
    if eventos != [] {
      match eventos[0]
      case Tick =>
        if !g.terminar {
          AvanzarEfectos(par, g);
          EjecutarInvariantes(par, Avanzar(par, g), eventos[1..]);
        } else {
          EjecutarInvariantes(par, g, eventos[1..]);
        }
      case Llega(buf) =>
        AtenderEfectos(par, g, buf);
        AtenderPreservaInvariantes(par, g, buf);
        EjecutarInvariantes(par, Atender(par, g, buf).estado, eventos[1..]);
    }
  }

  /** The reference scenario: ceiling 50, hours 7 to 19, clock at 7.  Family A
      asks for 20 people at 9 and is accepted; family B then asks for 40 at 9.
      Hour 9 is full for them, and so is hour 10 (its slot already holds A's
      20 for A's second hour), so B is moved to 11. */
  lemma EscenarioDeReferencia()
    ensures var par := Parametros(7, 19, 50);
      var d1 := Decidir(par, 7, Vacio(), "A", 9, 20);
      var d2 := Decidir(par, 7, d1.libro, "B", 9, 40);
      && d1.respuesta == Aceptada(9)
      && d2.respuesta == Reprogramada(SinCupoEn(9), 11)
  {
    var par := Parametros(7, 19, 50);
    var l1 := Agregar(Vacio(), 9, 20, "A");
    assert Cabe(par, Vacio(), 9, 20);
    assert l1.personas[2] == 20 && l1.personas[3] == 20 && l1.personas[4] == 0 && l1.personas[5] == 0;
    assert !Cabe(par, l1, 9, 40) && !Cabe(par, l1, 10, 40) && Cabe(par, l1, 11, 40);
    assert Primera(par, l1, 40, 11, 18) == 11;
    assert Primera(par, l1, 40, 10, 18) == 11;
    assert Primera(par, l1, 40, 9, 18) == 11;
  }

  /** The controller's global state, updated in place. */
  class Estado {
    const horaIni: int
    const horaFin: int
    const segHoras: int
    const aforoMax: int
    var horaActual: int
    var terminar: bool
    var personas: array<int>
    var familias: seq<seq<Familia>>
    var stats: Estadisticas

    function Par(): Parametros {
      Parametros(horaIni, horaFin, aforoMax)
    }

    ghost predicate Valid()
      reads this
    {
      && Par().Validos()
      && personas.Length == MaxHoras && |familias| == MaxHoras
      && horaIni <= horaActual <= horaFin + 1
      && (terminar <==> horaActual > horaFin)
    }

    ghost function Libro(): Reservas
      reads this, personas
    {
      Reservas(personas[..], familias)
    }

    ghost function Abstracto(): Global
      reads this, personas
    {
      Global(horaActual, terminar, Libro(), stats)
    }

    /** Startup once the parameters passed the check: clock at the opening
        hour, every count zero, every tally zero. */
    constructor (ini: int, fin: int, seg: int, aforo: int)
      requires Parametros(ini, fin, aforo).Validos()
      ensures Valid() && fresh(personas)
      ensures horaIni == ini && horaFin == fin && segHoras == seg && aforoMax == aforo
      ensures Abstracto() == Inicial(Par())
    {
      horaIni, horaFin, segHoras, aforoMax := ini, fin, seg, aforo;
      horaActual := ini;
      terminar := false;
      personas := new int[MaxHoras](_ => 0);
      familias := seq(MaxHoras, _ => []);
      stats := Estadisticas(0, 0, 0);
      new;
      assert personas[..] == Vacio().personas;
    }

    /** Whether `n` more people fit at `hora` and at the hour after it. */
    predicate VerificarDisponibilidad(hora: int, n: int)
      reads this, personas
      requires Valid() && hora >= HoraBase
      ensures VerificarDisponibilidad(hora, n) == Cabe(Par(), Libro(), hora, n)
    {
      if hora + 1 > horaFin then false
      else
        var i := Idx(hora);
        personas[i] + n <= aforoMax && personas[i + 1] + n <= aforoMax
    }

    /** The alternative-hour search over the live ledger. */
    method BuscarAlternativa(n: int, desde: int) returns (r: int)
      requires Valid() && desde >= HoraBase
      ensures r == Alternativa(Par(), Libro(), n, desde)
    {
      var ultima := horaFin - 1;
      var h := desde;
      while h <= ultima
        invariant desde <= h
        invariant Primera(Par(), Libro(), n, desde, ultima) == Primera(Par(), Libro(), n, h, ultima)
        decreases ultima - h
      {
        if VerificarDisponibilidad(h, n) {
          return h;
        }
        h := h + 1;
      }
      var tope := Min(desde - 1, ultima);
      h := horaIni;
      while h < desde && h <= ultima
        invariant horaIni <= h
        invariant Primera(Par(), Libro(), n, horaIni, tope) == Primera(Par(), Libro(), n, h, tope)
        decreases ultima - h
      {
        if VerificarDisponibilidad(h, n) {
          return h;
        }
        h := h + 1;
      }
      return -1;
    }

    /** Records party `familia` of size `n` at `hora` and `hora + 1`. */
    method AgregarReserva(hora: int, n: int, familia: string)
      requires Valid() && HoraBase <= hora < HoraTope
      modifies personas, this`familias
      ensures Valid()
      ensures Libro() == Agregar(old(Libro()), hora, n, familia)
    {
      var i := Idx(hora);
      var f := Familia(familia, n);
      personas[i] := personas[i] + n;
      personas[i + 1] := personas[i + 1] + n;
      familias := familias[i := familias[i] + [f]][i + 1 := familias[i + 1] + [f]];
    }

    /** Empties the slot of the parties that arrived two hours ago, and the
        slot after it, when the first one holds anybody. */
    method SacarSalientes()
      requires Valid()
      modifies personas, this`familias
      ensures Valid()
      ensures Libro() == Desalojar(Par(), old(Libro()), horaActual)
    {
      if horaActual < horaIni + 2 {
        return;
      }
      var horaSalida := horaActual - 2;
      var i := Idx(horaSalida);
      if 0 <= i < MaxHoras && personas[i] > 0 {
        personas[i] := 0;
        personas[i + 1] := 0;
        familias := familias[i := []][i + 1 := []];
      }
    }

    /** The clock tick.  Returns the delay of the next alarm, or None once the
        run has ended. */
    method ProcesarAvanceHora() returns (alarma: Option<int>)
      requires Valid() && !terminar
      modifies personas, this`familias, this`horaActual, this`terminar
      ensures Valid()
      ensures Abstracto() == Avanzar(Par(), old(Abstracto()))
      ensures alarma == if terminar then None else Some(segHoras)
    {
      SacarSalientes();
      horaActual := horaActual + 1;
      if horaActual > horaFin {
        terminar := true;
        alarma := None;
      } else {
        alarma := Some(segHoras);
      }
    }

    /** The allocation engine on the live state, under the mutex. */
    method AtenderSolicitud(familia: string, horaSol: int, n: int) returns (resp: Respuesta)
      requires Valid()
      modifies personas, this`familias, this`stats
      ensures Valid()
      ensures var d := Decidir(Par(), old(horaActual), old(Libro()), familia, horaSol, n);
        resp == d.respuesta && Libro() == d.libro && stats == Contar(old(stats), resp)
    {
      if n > aforoMax {
        resp := Negada(ExcedeAforo);
        stats := stats.(negadas := stats.negadas + 1);
      } else if horaSol < HoraBase || horaSol > HoraTope {
        resp := Negada(FueraDeRango);
        stats := stats.(negadas := stats.negadas + 1);
      } else if horaSol < horaActual {
        var alt := BuscarAlternativa(n, horaActual);
        if alt != -1 {
          AgregarReserva(alt, n, familia);
          resp := Reprogramada(Extemporanea, alt);
          stats := stats.(reprogramadas := stats.reprogramadas + 1);
        } else {
          resp := Negada(SinCupoHoy);
          stats := stats.(negadas := stats.negadas + 1);
        }
      } else if VerificarDisponibilidad(horaSol, n) {
        AgregarReserva(horaSol, n, familia);
        resp := Aceptada(horaSol);
        stats := stats.(aceptadas := stats.aceptadas + 1);
      } else {
        var alt := BuscarAlternativa(n, horaSol);
        if alt != -1 {
          AgregarReserva(alt, n, familia);
          resp := Reprogramada(SinCupoEn(horaSol), alt);
          stats := stats.(reprogramadas := stats.reprogramadas + 1);
        } else {
          resp := Negada(ParqueLleno);
          stats := stats.(negadas := stats.negadas + 1);
        }
      }
    }

    /** One message read from the main channel. */
    method ProcesarMensaje(buf: string) returns (envio: Option<Envio>)
      requires Valid()
      modifies personas, this`familias, this`stats
      ensures Valid()
      ensures Paso(Abstracto(), envio) == Atender(Par(), old(Abstracto()), buf)
    {
      match Clasificar(buf)
      case Descartado =>
        envio := None;
      case Registro(_, direccion) =>
        envio := Some(Envio(direccion, HoraActual(horaActual)));
      case Solicitud(agente, familia, hora, personas) =>
        var resp := AtenderSolicitud(familia, hora, personas);
        envio := Some(Envio(CanalAgente(agente), resp));
    }

    /** The final report: the peak and valley occupancy and the hours at them. */
    method GenerarReporteFinal() returns (maxOcup: int, pico: seq<int>, minOcup: int, valle: seq<int>)
      requires Valid()
      ensures maxOcup == Maximo(personas[..], horaIni, horaFin, 0)
      ensures pico == HorasCon(personas[..], horaIni, horaFin, maxOcup)
      ensures minOcup == Minimo(personas[..], horaIni, horaFin, MinInicial)
      ensures valle == HorasCon(personas[..], horaIni, horaFin, minOcup)
    {
      ghost var p := personas[..];
      maxOcup, minOcup := 0, MinInicial;
      pico, valle := [], [];
      var h := horaIni;
      while h <= horaFin
        invariant horaIni <= h <= horaFin + 1
        invariant maxOcup == Maximo(p, horaIni, h - 1, 0)
        invariant pico == HorasCon(p, horaIni, h - 1, maxOcup)
        invariant minOcup == Minimo(p, horaIni, h - 1, MinInicial)
        invariant valle == HorasCon(p, horaIni, h - 1, minOcup)
      {
        var ocupadas := personas[Idx(h)];
        PasoMaximo(p, horaIni, h, 0, maxOcup, pico);
        PasoMinimo(p, horaIni, h, MinInicial, minOcup, valle);
        if ocupadas > maxOcup {
          maxOcup := ocupadas;
          pico := [];
        }
        if ocupadas < minOcup {
          minOcup := ocupadas;
          valle := [];
        }
        if ocupadas == maxOcup {
          pico := pico + [h];
        }
        if ocupadas == minOcup {
          valle := valle + [h];
        }
        h := h + 1;
      }
    }
  }

  /** The startup check: an invalid configuration stops the controller before
      any state exists. */
  method Iniciar(ini: int, fin: int, seg: int, aforo: int) returns (c: Estado?)
    ensures c == null <==> !Parametros(ini, fin, aforo).Validos()
    ensures c != null ==> fresh(c) && c.Valid() && c.Abstracto() == Inicial(c.Par()) && c.segHoras == seg
  {
    if ini < 7 || fin > 19 || ini >= fin || aforo <= 0 {
      return null;
    }
    c := new Estado(ini, fin, seg, aforo);
  }
}
