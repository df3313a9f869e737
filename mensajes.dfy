/** The controller's inbound message format: `|`-separated fields read the way
    the C library's `sscanf` and `atoi` read them, and the classification of a
    message as a registration, a reservation request or something to drop. */
module Mensajes {

  /** A message after classification. */
  datatype Mensaje =
    | Registro(agente: string, direccion: string)
    | Solicitud(agente: string, familia: string, hora: int, personas: int)
    | Descartado

  /** The characters C's `isspace` accepts. */
  predicate EsEspacio(c: char) {
    c == ' ' || '\t' <= c <= '\r'
  }

  /** A string of white space only (possibly empty). */
  predicate EnBlanco(w: string) {
    forall i :: 0 <= i < |w| ==> EsEspacio(w[i])
  }

  predicate EsDigito(c: char) {
    '0' <= c <= '9'
  }

  /** What a `%[^|]` conversion reads: the longest prefix without a `|`. */
  function Campo(s: string): (f: string)
    ensures f <= s && '|' !in f
    ensures |f| < |s| ==> s[|f|] == '|'
  {
    if s == [] || s[0] == '|' then [] else [s[0]] + Campo(s[1..])
  }

  /** Drops leading white space. */
  function SaltarEspacios(s: string): (t: string)
    ensures |t| <= |s| && t == s[|s| - |t|..]
    ensures EnBlanco(s[..|s| - |t|])
    ensures t == [] || !EsEspacio(t[0])
  {
    if s != [] && EsEspacio(s[0]) then
      var t := SaltarEspacios(s[1..]);
      assert s[..|s| - |t|] == [s[0]] + s[1..][..|s| - 1 - |t|];
      t
    else s
  }

  /** The longest prefix without white space. */
  function HastaEspacio(s: string): (w: string)
    ensures w <= s && forall i :: 0 <= i < |w| ==> !EsEspacio(w[i])
    ensures |w| < |s| ==> EsEspacio(s[|w|])
  {
    if s == [] || EsEspacio(s[0]) then [] else [s[0]] + HastaEspacio(s[1..])
  }

  /** What a `%s` conversion reads: white space skipped, then a word. */
  function Palabra(s: string): string {
    HastaEspacio(SaltarEspacios(s))
  }

  /** The values `sscanf` stores for a format of `k` conversions separated by
      literal `|`: all `%[^|]`, except the last one, which is `%s` when
      `ultimaPalabra` holds.  Scanning stops at the first conversion that reads
      nothing or at the end of the input; the length of the result is the
      count `sscanf` returns. */
  function Escanear(s: string, k: nat, ultimaPalabra: bool): (r: seq<string>)
    requires k >= 1
    ensures |r| <= k && forall i :: 0 <= i < |r| ==> r[i] != []
    ensures forall i :: 0 <= i < |r| && !(ultimaPalabra && i == k - 1) ==> '|' !in r[i]
    ensures ultimaPalabra && |r| == k ==> PalabraLimpia(r[k - 1])
    decreases k
  {
    if k == 1 && ultimaPalabra then
      var w := Palabra(s);
      if w == [] then [] else [w]
    else
      var f := Campo(s);
      if f == [] then []
      else if k == 1 || |f| == |s| then [f]
      else [f] + Escanear(s[|f| + 1..], k - 1, ultimaPalabra)
  }

  /** The longest prefix of decimal digits. */
  function Digitos(s: string): (d: string)
    ensures d <= s && forall i :: 0 <= i < |d| ==> EsDigito(d[i])
    ensures |d| < |s| ==> !EsDigito(s[|d|])
  {
    if s != [] && EsDigito(s[0]) then [s[0]] + Digitos(s[1..]) else []
  }

  function ValorDigito(c: char): nat
    requires EsDigito(c)
  {
    c as int - '0' as int
  }

  /** The number a string of decimal digits denotes. */
  function Valor(d: string): nat
    requires forall i :: 0 <= i < |d| ==> EsDigito(d[i])
  {
    if d == [] then 0 else Valor(d[..|d| - 1]) * 10 + ValorDigito(d[|d| - 1])
  }

  /** C's `atoi`: optional white space, an optional sign, then the leading
      digits; 0 when there are none. */
  function Atoi(s: string): (r: int)
    ensures (forall i :: 0 <= i < |s| ==> !EsDigito(s[i])) ==> r == 0
  {
    var t := SaltarEspacios(s);
    if t != [] && t[0] == '-' then -(Valor(Digitos(t[1..])) as int)
    else if t != [] && t[0] == '+' then Valor(Digitos(t[1..]))
    else Valor(Digitos(t))
  }

  /** The controller's message classification: the type field and the agent
      field must both be present; a registration needs three fields and a
      request five, the last two converted with `atoi`; anything else is
      dropped without a reply. */
  function Clasificar(buf: string): (m: Mensaje)
    ensures m.Registro? ==> CampoLimpio(m.agente) && PalabraLimpia(m.direccion)
    ensures m.Solicitud? ==> CampoLimpio(m.agente) && CampoLimpio(m.familia)
  {
    var cabecera := Escanear(buf, 2, false);
    if |cabecera| < 2 then Descartado
    else if cabecera[0] == "REGISTRO" then
      var c := Escanear(buf, 3, true);
      if |c| != 3 then Descartado else Registro(c[1], c[2])
    else if cabecera[0] == "SOLICITUD" then
      var c := Escanear(buf, 5, true);
      if |c| != 5 then Descartado else Solicitud(c[1], c[2], Atoi(c[3]), Atoi(c[4]))
    else Descartado
  }

  // The agent's side of the protocol, used to state the round trip.

  function DigitoDe(d: nat): char
    requires d < 10
  {
    ('0' as int + d) as char
  }

  /** `%d` of a natural number. */
  function Decimal(n: nat): (s: string)
    ensures s != [] && forall i :: 0 <= i < |s| ==> EsDigito(s[i])
  {
    if n < 10 then [DigitoDe(n)] else Decimal(n / 10) + [DigitoDe(n % 10)]
  }

  /** `%d` of an integer. */
  function DecimalEntero(i: int): string {
    if i < 0 then "-" + Decimal(-i) else Decimal(i)
  }

  /** Fields joined with `|`. */
  function Unir(campos: seq<string>): string {
    if |campos| == 0 then []
    else if |campos| == 1 then campos[0]
    else campos[0] + "|" + Unir(campos[1..])
  }

  /** `REGISTRO|<agente>|<direccion>`, as an agent sends it. */
  function FormatoRegistro(agente: string, direccion: string): string {
    Unir(["REGISTRO", agente, direccion])
  }

  /** `SOLICITUD|<agente>|<familia>|<hora>|<personas>`, as an agent sends it. */
  function FormatoSolicitud(agente: string, familia: string, hora: int, personas: int): string {
    Unir(["SOLICITUD", agente, familia, DecimalEntero(hora), DecimalEntero(personas)])
  }

  /** A field a `%[^|]` conversion reads back whole. */
  predicate CampoLimpio(f: string) {
    f != [] && '|' !in f
  }

  /** A field a `%s` conversion reads back whole. */
  predicate PalabraLimpia(w: string) {
    w != [] && forall i :: 0 <= i < |w| ==> !EsEspacio(w[i])
  }

  lemma {:induction false} ValorDecimal(n: nat)
    ensures Valor(Decimal(n)) == n
  {
    if n >= 10 {
      var s := Decimal(n);
      assert s[..|s| - 1] == Decimal(n / 10);
      ValorDecimal(n / 10);
    }
  }

  lemma {:induction false} DigitosDeNumero(s: string)
    requires forall i :: 0 <= i < |s| ==> EsDigito(s[i])
    ensures Digitos(s) == s
  {
    if s != [] {
      DigitosDeNumero(s[1..]);
    }
  }

  lemma SinEspaciosDelante(s: string)
    requires s != [] && !EsEspacio(s[0])
    ensures SaltarEspacios(s) == s
  {
  }

  /** `atoi` reads back what `%d` wrote. */
  lemma AtoiDecimal(i: int)
    ensures Atoi(DecimalEntero(i)) == i
  {
    var s := DecimalEntero(i);
    if i < 0 {
      var d := Decimal(-i);
      assert s == "-" + d && s[0] == '-';
      SinEspaciosDelante(s);
      assert s[1..] == d;
      DigitosDeNumero(d);
      ValorDecimal(-i);
    } else {
      assert EsDigito(s[0]);
      SinEspaciosDelante(s);
      DigitosDeNumero(s);
      ValorDecimal(i);
    }
  }

  lemma DecimalEnteroLimpio(i: int)
    ensures CampoLimpio(DecimalEntero(i)) && PalabraLimpia(DecimalEntero(i))
  {
    var s := DecimalEntero(i);
    assert forall j :: 0 <= j < |s| ==> s[j] == '-' || EsDigito(s[j]);
  }

  lemma {:induction false} CampoDeUnion(f: string, resto: string)
    requires '|' !in f
    ensures Campo(f + "|" + resto) == f
  {
    if f != [] {
      assert (f + "|" + resto)[1..] == f[1..] + "|" + resto;
      CampoDeUnion(f[1..], resto);
    }
  }

  lemma {:induction false} CampoEntero(f: string)
    requires '|' !in f
    ensures Campo(f) == f
  {
    if f != [] {
      CampoEntero(f[1..]);
    }
  }

  lemma {:induction false} PalabraEntera(w: string)
    requires PalabraLimpia(w)
    ensures Palabra(w) == w
  {
    HastaEspacioEntero(w);
  }

  lemma {:induction false} HastaEspacioEntero(w: string)
    requires forall i :: 0 <= i < |w| ==> !EsEspacio(w[i])
    ensures HastaEspacio(w) == w
  {
    if w != [] {
      HastaEspacioEntero(w[1..]);
    }
  }

  lemma UnirCabeza(campos: seq<string>)
    requires |campos| >= 2
    ensures Unir(campos) == campos[0] + "|" + Unir(campos[1..])
  {
  }

  /** Past a clean first field and its `|`, scanning goes on with the rest. */
  lemma EscanearCabeza(f: string, resto: string, k: nat, ultimaPalabra: bool)
    requires CampoLimpio(f) && k >= 2
    ensures Escanear(f + "|" + resto, k, ultimaPalabra) == [f] + Escanear(resto, k - 1, ultimaPalabra)
  {
    var s := f + "|" + resto;
    CampoDeUnion(f, resto);
    assert s[|f| + 1..] == resto;
  }

  /** The fields a scan of `k` conversions reads back whole. */
  predicate Escaneables(campos: seq<string>, k: nat, ultimaPalabra: bool) {
    && 1 <= k <= |campos|
    && (forall i :: 0 <= i < k - 1 ==> CampoLimpio(campos[i]))
    && (ultimaPalabra ==> k == |campos| && PalabraLimpia(campos[k - 1]))
    && (!ultimaPalabra ==> CampoLimpio(campos[k - 1]))
  }

  lemma EscaneablesCola(campos: seq<string>, k: nat, ultimaPalabra: bool)
    requires Escaneables(campos, k, ultimaPalabra) && k >= 2
    ensures CampoLimpio(campos[0]) && Escaneables(campos[1..], k - 1, ultimaPalabra)
  {
    var cola := campos[1..];
    assert forall i :: 0 <= i < k - 2 ==> cola[i] == campos[i + 1];
    assert cola[k - 2] == campos[k - 1];
  }

  /** Scanning joined fields gives back the first `k` of them, provided each
      one read by `%[^|]` is non-empty and free of `|`, and the one read by a
      final `%s` is a non-empty word and the last field. */
  lemma {:induction false} EscanearUnir(campos: seq<string>, k: nat, ultimaPalabra: bool)
    requires Escaneables(campos, k, ultimaPalabra)
    ensures Escanear(Unir(campos), k, ultimaPalabra) == campos[..k]
    decreases k
  {
    if k == 1 {
      EscanearUnCampo(campos, ultimaPalabra);
    } else {
      var cola := campos[1..];
      var resto := Unir(cola);
      UnirCabeza(campos);
      EscaneablesCola(campos, k, ultimaPalabra);
      EscanearCabeza(campos[0], resto, k, ultimaPalabra);
      EscanearUnir(cola, k - 1, ultimaPalabra);
      assert campos[..k] == [campos[0]] + cola[..k - 1];
    }
  }

  lemma EscanearUnCampo(campos: seq<string>, ultimaPalabra: bool)
    requires 1 <= |campos|
    requires ultimaPalabra ==> |campos| == 1 && PalabraLimpia(campos[0])
    requires !ultimaPalabra ==> CampoLimpio(campos[0])
    ensures Escanear(Unir(campos), 1, ultimaPalabra) == [campos[0]]
  {
    if ultimaPalabra {
      assert Unir(campos) == campos[0];
      PalabraEntera(campos[0]);
    } else if |campos| == 1 {
      assert Unir(campos) == campos[0];
      CampoEntero(campos[0]);
    } else {
      UnirCabeza(campos);
      CampoDeUnion(campos[0], Unir(campos[1..]));
    }
  }

  /** A registration as the agent formats it is classified back to its fields. */
  lemma ClasificarRegistro(agente: string, direccion: string)
    requires CampoLimpio(agente) && PalabraLimpia(direccion)
    ensures Clasificar(FormatoRegistro(agente, direccion)) == Registro(agente, direccion)
  {
    var campos := ["REGISTRO", agente, direccion];
    assert CampoLimpio(campos[0]);
    EscanearUnir(campos, 2, false);
    EscanearUnir(campos, 3, true);
  }

  /** Five clean request fields, joined, are read back by both of the
      controller's scans. */
  lemma EscanearSolicitud(campos: seq<string>)
    requires |campos| == 5 && PalabraLimpia(campos[4])
    requires forall i :: 0 <= i < 4 ==> CampoLimpio(campos[i])
    ensures Escanear(Unir(campos), 2, false) == campos[..2]
    ensures Escanear(Unir(campos), 5, true) == campos
  {
    assert Escaneables(campos, 2, false);
    assert Escaneables(campos, 5, true);
    EscanearUnir(campos, 2, false);
    EscanearUnir(campos, 5, true);
  }

  /** A buffer whose scans read a request type and five fields is the request
      those fields spell. */
  lemma ClasificarPorCampos(buf: string, campos: seq<string>)
    requires |campos| == 5 && campos[0] == "SOLICITUD"
    requires Escanear(buf, 2, false) == campos[..2] && Escanear(buf, 5, true) == campos
    ensures Clasificar(buf) == Solicitud(campos[1], campos[2], Atoi(campos[3]), Atoi(campos[4]))
  {
  }

  /** A request as the agent formats it is classified back to its fields,
      hour and size included. */
  lemma ClasificarSolicitud(agente: string, familia: string, hora: int, personas: int)
    requires CampoLimpio(agente) && CampoLimpio(familia)
    ensures Clasificar(FormatoSolicitud(agente, familia, hora, personas))
      == Solicitud(agente, familia, hora, personas)
  {
    var campos := ["SOLICITUD", agente, familia, DecimalEntero(hora), DecimalEntero(personas)];
    var buf := FormatoSolicitud(agente, familia, hora, personas);
    assert buf == Unir(campos);
    DecimalEnteroLimpio(hora);
    DecimalEnteroLimpio(personas);
    assert CampoLimpio(campos[0]);
    EscanearSolicitud(campos);
    ClasificarPorCampos(buf, campos);
    AtoiDecimal(hora);
    AtoiDecimal(personas);
  }

  /** A message with no `|` has fewer than two fields and is dropped. */
  lemma SinSeparadorSeDescarta(buf: string)
    requires '|' !in buf
    ensures |Escanear(buf, 2, false)| < 2
    ensures Clasificar(buf) == Descartado
  {
    CampoEntero(buf);
  }

  /** Scanning fewer clean fields than the format has conversions gives back
      all of them, so the count comes out short. */
  lemma {:induction false} EscanearCorto(campos: seq<string>, k: nat, ultimaPalabra: bool)
    requires 1 <= |campos| < k
    requires forall i :: 0 <= i < |campos| ==> CampoLimpio(campos[i])
    ensures Escanear(Unir(campos), k, ultimaPalabra) == campos
    decreases k
  {
    if |campos| == 1 {
      assert Unir(campos) == campos[0];
      CampoEntero(campos[0]);
      assert CampoLimpio(campos[0]);
      assert |Campo(campos[0])| == |campos[0]|;
    } else {
      var cola := campos[1..];
      UnirCabeza(campos);
      assert CampoLimpio(campos[0]);
      assert forall i :: 0 <= i < |cola| ==> cola[i] == campos[i + 1];
      EscanearCabeza(campos[0], Unir(cola), k, ultimaPalabra);
      EscanearCorto(cola, k - 1, ultimaPalabra);
      assert campos == [campos[0]] + cola;
    }
  }

  /** A registration with only two fields is dropped. */
  lemma RegistroIncompletoSeDescarta(agente: string)
    requires CampoLimpio(agente)
    ensures Clasificar(Unir(["REGISTRO", agente])) == Descartado
  {
    var campos := ["REGISTRO", agente];
    assert CampoLimpio(campos[0]);
    EscanearCorto(campos, 3, true);
    EscanearUnir(campos, 2, false);
  }

  /** A request with fewer than five fields is dropped, whatever the fields
      after the type hold. */
  lemma SolicitudIncompletaSeDescarta(campos: seq<string>)
    requires 2 <= |campos| < 5 && campos[0] == "SOLICITUD"
    requires forall i :: 0 <= i < |campos| ==> CampoLimpio(campos[i])
    ensures Clasificar(Unir(campos)) == Descartado
  {
    assert Escaneables(campos, 2, false);
    EscanearUnir(campos, 2, false);
    EscanearCorto(campos, 5, true);
  }

  /** A request whose hour field is non-empty but holds no digit (white space,
      a sign or any other character) is not dropped: `atoi` reads it as hour 0. */
  lemma HoraIlegibleSeLeeComoCero(agente: string, familia: string, hora: string, personas: int)
    requires CampoLimpio(agente) && CampoLimpio(familia) && CampoLimpio(hora)
    requires forall i :: 0 <= i < |hora| ==> !EsDigito(hora[i])
    ensures Clasificar(Unir(["SOLICITUD", agente, familia, hora, DecimalEntero(personas)]))
      == Solicitud(agente, familia, 0, personas)
  {
    var campos := ["SOLICITUD", agente, familia, hora, DecimalEntero(personas)];
    DecimalEnteroLimpio(personas);
    assert CampoLimpio(campos[0]);
    EscanearSolicitud(campos);
    ClasificarPorCampos(Unir(campos), campos);
    AtoiDecimal(personas);
  }

  /** A field of white space only is no word: `%s` reads nothing from it. */
  lemma PalabraEnBlanco(w: string)
    requires EnBlanco(w)
    ensures Palabra(w) == []
  {
  }

  /** Scanning stops at the first empty field read by `%[^|]`: the values
      before it are stored and the count comes out short. */
  lemma {:induction false} EscanearHastaVacio(campos: seq<string>, k: nat, ultimaPalabra: bool, j: nat)
    requires j < |campos| && j < k && (ultimaPalabra ==> j < k - 1) && campos[j] == []
    requires forall i :: 0 <= i < j ==> CampoLimpio(campos[i])
    ensures Escanear(Unir(campos), k, ultimaPalabra) == campos[..j]
    decreases j
  {
    if j == 0 {
      if |campos| >= 2 {
        UnirCabeza(campos);
      }
    } else {
      var cola := campos[1..];
      UnirCabeza(campos);
      assert forall i :: 0 <= i < j - 1 ==> cola[i] == campos[i + 1];
      EscanearCabeza(campos[0], Unir(cola), k, ultimaPalabra);
      EscanearHastaVacio(cola, k - 1, ultimaPalabra, j - 1);
      assert campos[..j] == [campos[0]] + cola[..j - 1];
    }
  }

  /** A final `%s` over a field of white space only reads nothing, so the
      count comes out one short. */
  lemma {:induction false} EscanearPalabraEnBlanco(campos: seq<string>, k: nat)
    requires |campos| == k >= 1
    requires forall i :: 0 <= i < k - 1 ==> CampoLimpio(campos[i])
    requires EnBlanco(campos[k - 1])
    ensures Escanear(Unir(campos), k, true) == campos[..k - 1]
    decreases k
  {
    if k == 1 {
      assert Unir(campos) == campos[0];
      PalabraEnBlanco(campos[0]);
    } else {
      var cola := campos[1..];
      UnirCabeza(campos);
      assert forall i :: 0 <= i < k - 2 ==> cola[i] == campos[i + 1];
      assert cola[k - 2] == campos[k - 1];
      EscanearCabeza(campos[0], Unir(cola), k, true);
      EscanearPalabraEnBlanco(cola, k - 1);
      assert campos[..k - 1] == [campos[0]] + cola[..k - 2];
    }
  }

  /** A message with an empty type or agent field is dropped; so is a request
      with an empty family or hour field. */
  lemma CampoVacioSeDescarta(campos: seq<string>, j: nat)
    requires j < |campos| && campos[j] == []
    requires forall i :: 0 <= i < j ==> CampoLimpio(campos[i])
    requires j <= 1 || (j <= 3 && campos[0] == "SOLICITUD")
    ensures Clasificar(Unir(campos)) == Descartado
  {
    if j <= 1 {
      EscanearHastaVacio(campos, 2, false, j);
    } else {
      assert Escaneables(campos, 2, false);
      EscanearUnir(campos, 2, false);
      EscanearHastaVacio(campos, 5, true, j);
    }
  }

  /** A registration whose channel, or a request whose size, is empty or
      white space only is dropped. */
  lemma UltimaPalabraEnBlancoSeDescarta(campos: seq<string>)
    requires (|campos| == 3 && campos[0] == "REGISTRO") || (|campos| == 5 && campos[0] == "SOLICITUD")
    requires forall i :: 0 <= i < |campos| - 1 ==> CampoLimpio(campos[i])
    requires EnBlanco(campos[|campos| - 1])
    ensures Clasificar(Unir(campos)) == Descartado
  {
    assert Escaneables(campos, 2, false);
    EscanearUnir(campos, 2, false);
    EscanearPalabraEnBlanco(campos, |campos|);
  }

  /** A message whose type is neither REGISTRO nor SOLICITUD is dropped,
      whatever follows it. */
  lemma TipoDesconocidoSeDescarta(tipo: string, resto: string)
    requires CampoLimpio(tipo) && tipo != "REGISTRO" && tipo != "SOLICITUD"
    ensures Clasificar(tipo + "|" + resto) == Descartado
  {
    CampoDeUnion(tipo, resto);
  }
}
