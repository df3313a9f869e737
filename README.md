# Parque Berlín reservation controller — admission core

This project models the admission-control core of the Parque Berlín
reservation controller (`controlador.c`). The controller keeps a ledger of
13 hourly slots (7:00 to 19:00). Each slot has a head count and a list of
the families present. A family admitted at hour `h` stays two hours, so it
occupies the slots of `h` and `h + 1`. The ceiling `aforo_max` must never be
exceeded.

Agents send `|`-separated messages. A `REGISTRO` is answered with the
current hour. A `SOLICITUD` is decided in one of four ways:
- accepted at the requested hour;
- rescheduled to the first available hour, searching forward from the
  current hour for a late request or from the requested hour for a full one,
  and wrapping round to the opening hour;
- denied;
- dropped, when the message is malformed, with no reply.

Every decided request bumps exactly one of three counters. An alarm
advances the clock one hour at a time. On each tick, the parties that
arrived two hours earlier leave. At the end, a report lists the peak and
valley hours.

The model has three modules:

- `Agenda` (agenda.dfy) holds the ledger and the allocation engine as pure
  functions over values:
  - the availability test `Cabe`;
  - the first-fit search `Primera`/`Alternativa`;
  - two-slot admission `Agregar`;
  - eviction `Desalojar`;
  - the request decision `Decidir` and the counters `Contar`;
  - the report's running maximum, minimum and hour lists.

  The lemmas state what these promise: the ceiling invariant, the search
  order, the denial conditions, and "exactly one counter".
- `Mensajes` (mensajes.dfy) holds the inbound message format. It models
  the `sscanf` conversions the controller uses: `%[^|]` as `Campo` and `%s`
  as `Palabra`. It also models C's `atoi` and the classification into
  registration, request or dropped message. The round-trip lemmas show that
  what an agent formats with `snprintf` is classified back to the same
  fields and numbers.
- `Controlador` (controlador.dfy) holds the controller's global state. The
  class `Estado` has the per-hour counts in an `array<int>` of length 13,
  updated in place. It also holds the per-slot family lists, the counters,
  the clock and the end flag. Each region the C code runs under its mutex
  is one atomic method:
  - the clock tick;
  - the handling of one message;
  - the request decision.

  Each method is proved against the `Agenda`/`Controlador` specification
  functions. The module also defines runs, meaning any interleaving of ticks
  and messages, as `Ejecutar`. `EjecutarInvariantes` proves over every run
  that no slot exceeds the ceiling, counts agree with the recorded
  families, the clock never moves back, and the tally grows by exactly the
  number of requests.

Some behaviours of the code are easy to misread; the model follows the code:
- **Hour range check.** The check uses the literal range 7..19, not the
  configured opening hours.
- **Rescheduling past a two-hour stay.** With a ceiling of 50, family A
  (20 people at 9) is accepted and then family B (40 people at 9) is moved
  to 11, not 10: slot 10 already holds A's 20 for A's second hour.
  `Controlador.EscenarioDeReferencia` proves the 11.
- **Eviction.** The tick's eviction empties the slot after the departing one
  as well, and only when the departing slot's count is positive (party sizes
  are not checked, so a slot can list families and still have a count of 0
  or less).
- **Unreadable numbers.** A non-empty hour field, or a size word, that holds
  no digit is not rejected; `atoi` reads it as 0. An empty hour field, or an
  empty or blank size, drops the message instead, because the scan comes out
  short.
- **Report starting values.** The report's running maximum starts at 0 and
  its running minimum at 99999.

## Model

| member | source | states |
|---|---|---|
| Agenda.Vacio | controlador.c:280 | the ledger at startup has 13 slots, each with count 0 and no families |
| Agenda.VacioCumpleInvariantes | controlador.c:280 | the empty ledger is within any non-negative ceiling and its counts agree with its (empty) family lists |
| Agenda.TotalAnexar | controlador.c:64-70 | appending a family's record to a slot's list adds its size to the list's total |
| Agenda.Agregar | controlador.c:62-71 | admission adds `n` to exactly slots `idx(h)` and `idx(h)+1`, appends `(familia, n)` to exactly those two lists, and changes no other slot |
| Agenda.Cabe | controlador.c:46-51 | an available hour is always before `hora_fin`; `CabeSiYSoloSiAdmisible` states the full meaning |
| Agenda.CabeSiYSoloSiAdmisible | controlador.c:46-51 | an hour is available iff it is before `hora_fin` and admitting the party there keeps every slot within `aforo_max`; so `hora_fin` itself is never available |
| Agenda.AgregarPreservaInvariantes | controlador.c:62-71 | admitting at an available hour keeps every slot within the ceiling and keeps each count equal to the total of its recorded families |
| Agenda.Primera | controlador.c:55-58 | each loop of the search returns -1 or the first hour in `lo..hi` that passes the availability test, every earlier hour in range failing it |
| Agenda.Alternativa | controlador.c:53-60 | the search returns -1 or an available hour below `hora_fin`; a result at or after `desde` is the first available one from `desde`; a result before `desde` means nothing from `desde` on was available and it is the first available from `hora_ini` |
| Agenda.AlternativaFallaSoloSinCupo | controlador.c:53-60 | starting at or after `hora_ini`, the search returns -1 iff no hour in `hora_ini..hora_fin-1` is available |
| Agenda.Decidir | controlador.c:187-225 | a denial leaves the ledger unchanged; any other reply names an hour from `hora_ini` and below `hora_fin` that was available, and the new ledger is the old one with the party admitted at exactly that hour |
| Agenda.DecidirPreservaInvariantes | controlador.c:187-225 | every request outcome keeps all slots within the ceiling and counts in agreement with the recorded families |
| Agenda.DecidirAceptaSiCabe | controlador.c:207-212 | a request is accepted iff its size is within the ceiling, its hour is in 7..19, not before the current hour, and available; acceptance is at the requested hour; a request for `hora_fin` is never accepted |
| Agenda.DecidirNiegaSoloSinCupo | controlador.c:187-225 | a request is denied iff it is oversized, its hour is outside 7..19, or no hour of the day can take it; the reply names the failed check: oversized whatever its hour, then out of range, then no room today for a late request, then park full when the requested hour and every alternative are full |
| Agenda.DecidirOrdenDeBusqueda | controlador.c:195-225 | a rescheduling is "late" iff the requested hour is before the current hour, and then the search starts from the current hour; otherwise it names the full requested hour and starts from it; the new hour is the first available in that wrap-around order |
| Agenda.Contar | controlador.c:189-223 | counting a decision reply adds one to the counters' sum and never lowers a counter; a registration reply counts nothing; `DecidirCuentaUnaVez` says which counter moves |
| Agenda.DecidirCuentaUnaVez | controlador.c:187-225 | each decided request raises exactly one counter by one, the one matching its reply, and the counters' sum by exactly one |
| Agenda.Desalojar | controlador.c:73-87 | before `hora_ini+2`, or when the count of slot `hora_actual-2` is not positive, nothing changes; otherwise slots `hora_actual-2` and `hora_actual-1` become 0 and empty and all others stay |
| Agenda.DesalojarPreservaInvariantes | controlador.c:73-87 | eviction keeps the ceiling and the agreement of counts with recorded families |
| Agenda.DesalojoParteLaReservaSiguiente | controlador.c:79-86 | a family admitted one hour before the tick loses its record at its arrival hour but keeps it at the current hour, when the slot two hours back was occupied |
| Agenda.Maximo | controlador.c:242-248 | the running maximum is at least its start value and every count in range, and equals the start value or one of those counts |
| Agenda.Minimo | controlador.c:242-249 | the running minimum is at most its start value and every count in range, and equals the start value or one of those counts |
| Agenda.HorasCon | controlador.c:251-252 | the hour list of a range has at most one entry per hour; `HorasConSignificado` states which hours and their order |
| Agenda.HorasConSignificado | controlador.c:251-252 | the hour list holds exactly the hours in range whose count equals the given value, in strictly ascending order |
| Agenda.HorasConVacia | controlador.c:248-249 | when no hour in range has the value, its hour list is empty (so a new maximum or minimum restarts the list) |
| Agenda.PasoMaximo | controlador.c:247-251 | one loop step of the report turns the maximum and peak list of `hora_ini..h-1` into those of `hora_ini..h` |
| Agenda.PasoMinimo | controlador.c:247-252 | one loop step of the report turns the minimum and valley list of `hora_ini..h-1` into those of `hora_ini..h` |
| Mensajes.Campo | controlador.c:148 | a `%[^\|]` conversion reads a prefix of the input free of `\|`, stopping only at a `\|` or the end |
| Mensajes.SaltarEspacios | controlador.c:156 | skipping white space drops a prefix made only of white space and leaves a suffix that is empty or starts with a non-space |
| Mensajes.HastaEspacio | controlador.c:156 | the word a `%s` conversion stores is a prefix with no white space, stopping only at white space or the end |
| Mensajes.Escanear | controlador.c:148-171 | a scan stores at most as many values as the format has conversions, none of them empty; every value a `%[^\|]` stores is free of `\|`, and a final `%s` value is a word without white space; `EscanearHastaVacio` and `EscanearPalabraEnBlanco` state where it stops short |
| Mensajes.Digitos | controlador.c:175-176 | `atoi` reads the longest prefix made only of decimal digits |
| Mensajes.Atoi | controlador.c:175-176 | a field with no digit in it reads as 0; `AtoiDecimal` states that every `%d` output reads back as its integer |
| Mensajes.Decimal | agente.c:140-142 | `%d` of a natural number is a non-empty string of digits |
| Mensajes.ValorDecimal | agente.c:140-142 | the digits `%d` writes for a natural number denote that number |
| Mensajes.DigitosDeNumero | controlador.c:175-176 | on a string of digits `atoi` reads the whole string |
| Mensajes.SinEspaciosDelante | controlador.c:175-176 | a field starting with a non-space is not altered by `atoi`'s white-space skip |
| Mensajes.AtoiDecimal | controlador.c:175-176 | `atoi` reads back every integer `%d` writes, negative ones included |
| Mensajes.DecimalEnteroLimpio | agente.c:140-142 | a formatted integer is non-empty and contains neither `\|` nor white space |
| Mensajes.CampoDeUnion | controlador.c:148 | `%[^\|]` on a `\|`-free field followed by `\|` reads exactly that field |
| Mensajes.CampoEntero | controlador.c:148 | `%[^\|]` on a `\|`-free input reads all of it |
| Mensajes.PalabraEntera | controlador.c:156 | `%s` on a non-empty word without white space reads all of it |
| Mensajes.HastaEspacioEntero | controlador.c:156 | a string without white space is a word in full |
| Mensajes.UnirCabeza | agente.c:78 | a message of two or more fields is its first field, a `\|`, then the rest joined |
| Mensajes.EscanearCabeza | controlador.c:148-171 | after a clean first field and its `\|`, a scan stores that field and goes on with one conversion fewer on the rest |
| Mensajes.EscaneablesCola | controlador.c:148-171 | dropping the first of a list of cleanly scannable fields leaves a cleanly scannable list for one conversion fewer |
| Mensajes.EscanearUnir | controlador.c:148-171 | scanning joined clean fields with `k` conversions gives back exactly the first `k` fields |
| Mensajes.EscanearUnCampo | controlador.c:148-171 | a single conversion on joined clean fields gives back the first field |
| Mensajes.EscanearSolicitud | controlador.c:148-171 | five clean request fields, joined with `\|`, are read back by the two-conversion scan (the first two) and by the five-conversion scan (all five) |
| Mensajes.ClasificarPorCampos | controlador.c:169-176 | when the scans read the `SOLICITUD` type and five fields, the message is the request with agent, family and the `atoi` of the hour and size fields |
| Mensajes.Clasificar | controlador.c:148-176 | a classified registration has a non-empty `\|`-free agent and a non-empty word as channel; a classified request has non-empty `\|`-free agent and family; the round-trip and drop lemmas below state which messages give which result |
| Mensajes.ClasificarRegistro | controlador.c:153-159 | a registration formatted as the agent formats it is classified as that registration, agent and channel intact |
| Mensajes.ClasificarSolicitud | controlador.c:169-176 | a request formatted as the agent formats it is classified as that request, with the same agent, family, hour and size |
| Mensajes.SinSeparadorSeDescarta | controlador.c:148-150 | a message with no `\|` yields fewer than two fields and is dropped |
| Mensajes.PalabraEnBlanco | controlador.c:156 | a `%s` conversion reads nothing from a field that is empty or white space only |
| Mensajes.EscanearHastaVacio | controlador.c:148-171 | a scan stops at the first empty field read by `%[^\|]`: it stores exactly the fields before it, so the count comes out short |
| Mensajes.EscanearPalabraEnBlanco | controlador.c:156-171 | a final `%s` over a field that is empty or white space only stores nothing, so the count is one short |
| Mensajes.CampoVacioSeDescarta | controlador.c:148-172 | a message with an empty type or agent field is dropped, and so is a `SOLICITUD` with an empty family or hour field |
| Mensajes.UltimaPalabraEnBlancoSeDescarta | controlador.c:156-172 | a `REGISTRO` whose channel, or a `SOLICITUD` whose size, is empty or white space only is dropped |
| Mensajes.EscanearCorto | controlador.c:148-171 | scanning fewer clean fields than there are conversions stores them all, so the count comes out short |
| Mensajes.RegistroIncompletoSeDescarta | controlador.c:156-159 | a registration with only two fields is dropped |
| Mensajes.SolicitudIncompletaSeDescarta | controlador.c:170-173 | a `SOLICITUD` with two, three or four clean fields is dropped, whatever those fields hold |
| Mensajes.HoraIlegibleSeLeeComoCero | controlador.c:170-176 | a request whose hour field is non-empty, free of `\|` and holds no digit at all (white space, signs and other characters included) is still classified as a request, with hour 0 |
| Mensajes.TipoDesconocidoSeDescarta | controlador.c:148-169 | a message whose type is neither `REGISTRO` nor `SOLICITUD` is dropped, whatever follows it |
| Controlador.Inicial | controlador.c:274-280 | the starting state is well formed: clock at `hora_ini`, not ended, ledger within the ceiling and coherent |
| Controlador.Atender | controlador.c:141-229 | handling a message keeps the state well formed and never moves the clock or the end flag; `AtenderEfectos` and `AtenderPreservaInvariantes` state the rest |
| Controlador.AtenderEfectos | controlador.c:141-229 | a dropped message changes nothing and gets no reply; a registration changes nothing and is answered with the current hour on its own channel; only a request moves the tally, by exactly one; no message moves the clock |
| Controlador.AtenderPreservaInvariantes | controlador.c:141-229 | no message takes a slot over the ceiling or breaks the agreement of counts and recorded families |
| Controlador.Avanzar | controlador.c:104-117 | a tick keeps the state well formed; `AvanzarEfectos` states the clock, end flag, counters and ledger after it |
| Controlador.AvanzarEfectos | controlador.c:104-117 | a tick moves the clock by exactly one, ends the run iff the new hour is past `hora_fin`, leaves the counters alone, leaves the ledger `Desalojar` gives at the old hour, and keeps the ledger invariants |
| Controlador.Ejecutar | controlador.c:121-231 | any sequence of ticks and messages leaves a well-formed state |
| Controlador.EjecutarInvariantes | controlador.c:98-231 | over any interleaving of ticks and messages, no slot exceeds the ceiling, counts agree with the recorded families, the clock never goes back and the tally grows by exactly the number of requests |
| Controlador.EscenarioDeReferencia | controlador.c:207-224 | with ceiling 50, family A (20 at 9) is accepted at 9 and family B (40 at 9) is rescheduled from 9 to 11 |
| Controlador.Estado.constructor | controlador.c:279-280 | after the startup check, the clock is at `hora_ini`, every count and counter is zero and every list is empty |
| Controlador.Estado.VerificarDisponibilidad | controlador.c:46-51 | the availability test on the live array is exactly the ledger's `Cabe` |
| Controlador.Estado.BuscarAlternativa | controlador.c:53-60 | the two loops over the live array return exactly the wrap-around first fit `Alternativa` |
| Controlador.Estado.AgregarReserva | controlador.c:62-71 | the in-place update leaves exactly the ledger `Agregar` describes |
| Controlador.Estado.SacarSalientes | controlador.c:73-87 | the in-place eviction leaves exactly the ledger `Desalojar` describes |
| Controlador.Estado.ProcesarAvanceHora | controlador.c:104-117 | the tick leaves exactly the state `Avanzar` describes and schedules the next alarm iff the run has not ended |
| Controlador.Estado.AtenderSolicitud | controlador.c:187-225 | the request branch returns the reply `Decidir` gives, leaves its ledger, and bumps the counter that matches the reply |
| Controlador.Estado.ProcesarMensaje | controlador.c:141-229 | handling one message leaves exactly the state and sends exactly the reply `Atender` describes |
| Controlador.Estado.GenerarReporteFinal | controlador.c:242-253 | the report returns the maximum of 0 and all counts with the ascending hours at it, and the minimum of 99999 and all counts with the ascending hours at it |
| Controlador.Iniciar | controlador.c:274-280 | the controller refuses to start iff not `7 <= hora_ini < hora_fin <= 19` and `aforo_max > 0`; otherwise it starts in the initial state |

## Left out

- FIFO transport is not modelled: `enviar_respuesta`, `open`/`read`/`write`/`mkfifo`/`unlink`, and the reopen-and-sleep loop. A reply is the value `Envio(destino, respuesta)`.
- Threads, the mutex, the `SIGALRM` handler, `alarm` and the busy-wait main loop are not modelled. Each locked region is one atomic method. A run is an arbitrary sequence of such steps.
- The registration reply reads `hora_actual` outside the mutex. The model reads it atomically.
- The `alarm(seg_horas)` call is modelled only as the delay `ProcesarAvanceHora` returns.
- `printf` logging is not modelled. That includes the tick's report of who is in the park and the final report's printing.
- Replies are a datatype, not the exact Spanish text.
- Mensajes.Escanear: does not model the `sscanf` field widths (`%15[^|]`, `%63[^|]`, `%99[^|]`, `%15s`, `%255s`). In C, a `%[^|]` field longer than its width stops the conversion short, the following literal `|` then fails to match and the message is dropped; a final `%s` word longer than its width is cut. The model reads every field whole, so such a message is classified with its full fields.
- A single `read` can return several NUL-separated messages. The model treats each buffer as one message.
- The 1023-byte read limit is not modelled.
- Byte-buffer truncation of the family lists by `strncat` at 1024 bytes is not modelled. The 128-byte truncation of one record is not modelled either. The lists are unbounded sequences of `(name, size)` records.
- `getopt` parsing is not modelled. Only the startup validity check and the initial state are.
- Integers are unbounded. 32-bit overflow of counters or sizes and the undefined behaviour of `atoi` on out-of-range numbers are not modelled.
- Of agente.c, only the message format it writes is modelled. It is used to state the round-trip lemmas. Its CSV reading and its own skip of past hours are left out.
