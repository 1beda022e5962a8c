/** The mapping between the settings file and a server configuration. */
module Settings {
  import opened Bytes

  const MILLISECONDS_PER_SECOND: nat := 1000

  const VERIFY_SHA1 := "verify_sha1"

  // ----- JSON as the settings library presents it -----

  /** The keys that the code compares with, at either level, and any other. */
  datatype Key =
    | Remarks | Password | Method | Protocol | ProtocolParam | Obfs | ObfsParam | Udp
    | IdleTimeout | ConnectTimeout | UdpTimeout | ClientSettings | OverTlsSettings
    | Server | ServerPort | ListenAddress | ListenPort
    | Enable | ServerDomain | Path | RootCertFile
    | Unlisted(name: string)

  datatype Value =
    | Text(s: string)
    | Number(n: int)
    | Flag(b: bool)
    | Object(members: seq<Member>)
    | Other

  datatype Member = Member(key: Key, value: Value)

  /** No two members have the same key. */
  predicate Distinct(ms: seq<Member>) {
    forall i, j | 0 <= i < j < |ms| :: ms[i].key != ms[j].key
  }

  /** The value of the last member with the given key. */
  function Find(ms: seq<Member>, key: Key): Option<Value> {
    if |ms| == 0 then None
    else if ms[|ms| - 1].key == key then Some(ms[|ms| - 1].value)
    else Find(ms[..|ms| - 1], key)
  }

  lemma {:induction false} FindIs(ms: seq<Member>, key: Key)
    requires Distinct(ms)
    ensures forall v :: Find(ms, key) == Some(v) <==> Member(key, v) in ms
    decreases |ms|
  {
    if |ms| > 0 {
      var n := |ms| - 1;
      FindIs(ms[..n], key);
      assert ms == ms[..n] + [ms[n]];
    }
  }

  // ----- configurations -----

  datatype Texts = Texts(
    remarks: Option<string>, password: Option<string>, cipher: Option<string>, protocol: Option<string>,
    protocolParam: Option<string>, obfs: Option<string>, obfsParam: Option<string>)

  datatype Numbers = Numbers(udp: bool, idleTimeout: int, connectTimeout: int, udpTimeout: int)

  datatype Client = Client(remoteHost: Option<string>, remotePort: int, listenHost: Option<string>, listenPort: int)

  datatype Tls = Tls(enable: bool, serverDomain: Option<string>, path: Option<string>, rootCertFile: Option<string>)

  datatype Settings = Settings(texts: Texts, numbers: Numbers, client: Client, tls: Tls)

  // ----- what one member sets; a member of another type than expected sets nothing -----

  /** The protocol verify_sha1 is dropped. */
  function Accepted(s: string): Option<string> {
    if s == VERIFY_SHA1 then None else Some(s)
  }

  function SetText(t: Texts, k: Key, v: Value): Texts {
    match (k, v)
    case (Remarks, Text(s)) => t.(remarks := Some(s))
    case (Password, Text(s)) => t.(password := Some(s))
    case (Method, Text(s)) => t.(cipher := Some(s))
    case (Protocol, Text(s)) => t.(protocol := Accepted(s))
    case (ProtocolParam, Text(s)) => t.(protocolParam := Some(s))
    case (Obfs, Text(s)) => t.(obfs := Some(s))
    case (ObfsParam, Text(s)) => t.(obfsParam := Some(s))
    case _ => t
  }

  function SetNumber(m: Numbers, k: Key, v: Value): Numbers {
    match (k, v)
    case (Udp, Flag(b)) => m.(udp := b)
    case (IdleTimeout, Number(n)) => m.(idleTimeout := n * MILLISECONDS_PER_SECOND)
    case (ConnectTimeout, Number(n)) => m.(connectTimeout := n * MILLISECONDS_PER_SECOND)
    case (UdpTimeout, Number(n)) => m.(udpTimeout := n * MILLISECONDS_PER_SECOND)
    case _ => m
  }

  function SetClient(c: Client, k: Key, v: Value): Client {
    match (k, v)
    case (Server, Text(s)) => c.(remoteHost := Some(s))
    case (ServerPort, Number(n)) => c.(remotePort := n)
    case (ListenAddress, Text(s)) => c.(listenHost := Some(s))
    case (ListenPort, Number(n)) => c.(listenPort := n)
    case _ => c
  }

  function SetTls(t: Tls, k: Key, v: Value): Tls {
    match (k, v)
    case (Enable, Flag(b)) => t.(enable := b)
    case (ServerDomain, Text(s)) => t.(serverDomain := Some(s))
    case (Path, Text(s)) => t.(path := Some(s))
    case (RootCertFile, Text(s)) => t.(rootCertFile := Some(s))
    case _ => t
  }

  function SetAllClient(c: Client, ms: seq<Member>): Client {
    if |ms| == 0 then c else SetClient(SetAllClient(c, ms[..|ms| - 1]), ms[|ms| - 1].key, ms[|ms| - 1].value)
  }

  function SetAllTls(t: Tls, ms: seq<Member>): Tls {
    if |ms| == 0 then t else SetTls(SetAllTls(t, ms[..|ms| - 1]), ms[|ms| - 1].key, ms[|ms| - 1].value)
  }

  function Set(c: Settings, k: Key, v: Value): Settings {
    match (k, v)
    case (ClientSettings, Object(ms)) => c.(client := SetAllClient(c.client, ms))
    case (OverTlsSettings, Object(ms)) => c.(tls := SetAllTls(c.tls, ms))
    case _ => c.(texts := SetText(c.texts, k, v), numbers := SetNumber(c.numbers, k, v))
  }

  /** All members in the order of the file. */
  function SetAll(c: Settings, ms: seq<Member>): Settings {
    if |ms| == 0 then c else Set(SetAll(c, ms[..|ms| - 1]), ms[|ms| - 1].key, ms[|ms| - 1].value)
  }

  // ----- the parser -----

  /** A configuration object, updated in place. */
  class Config {
    var texts: Texts
    var numbers: Numbers
    var client: Client
    var tls: Tls

    /** config_create: some default record. */
    constructor (defaults: Settings)
      ensures Value() == defaults
    {
      texts, numbers, client, tls := defaults.texts, defaults.numbers, defaults.client, defaults.tls;
    }

    function Value(): Settings
      reads this
    {
      Settings(texts, numbers, client, tls)
    }

    /** json_iter_extract_string. */
    static method ExtractString(key: Key, m: Member) returns (ok: bool, value: Option<string>)
      ensures ok <==> m.key == key && m.value.Text?
      ensures value == if ok then Some(m.value.s) else None
    {
      value := None;
      if m.key != key || !m.value.Text? {
        return false, value;
      }
      return true, Some(m.value.s);
    }

    /** json_iter_extract_int. */
    static method ExtractInt(key: Key, m: Member) returns (ok: bool, value: int)
      ensures ok <==> m.key == key && m.value.Number?
      ensures value == if ok then m.value.n else 0
    {
      value := 0;
      if m.key != key || !m.value.Number? {
        return false, value;
      }
      return true, m.value.n;
    }

    /** json_iter_extract_bool. */
    static method ExtractBool(key: Key, m: Member) returns (ok: bool, value: bool)
      ensures ok <==> m.key == key && m.value.Flag?
      ensures value == (ok && m.value.b)
    {
      value := false;
      if m.key != key || !m.value.Flag? {
        return false, value;
      }
      return true, m.value.b;
    }

    /** json_iter_extract_object. */
    static method ExtractObject(key: Key, m: Member) returns (ok: bool, value: seq<Member>)
      ensures ok <==> m.key == key && m.value.Object?
      ensures value == if ok then m.value.members else []
    {
      value := [];
      if m.key != key || !m.value.Object? {
        return false, value;
      }
      return true, m.value.members;
    }

    /** The text members of the outer object. */
    method TakeText(m: Member) returns (taken: bool)
      modifies this`texts
      ensures taken ==> texts == SetText(old(texts), m.key, m.value)
      ensures !taken ==> texts == old(texts)
      ensures taken <==> m.value.Text? && m.key in {Remarks, Password, Method, Protocol, ProtocolParam, Obfs, ObfsParam}
    {
      var s: Option<string>;
      taken, s := ExtractString(Remarks, m);
      if taken {
        texts := texts.(remarks := s);
        return;
      }
      taken, s := ExtractString(Password, m);
      if taken {
        texts := texts.(password := s);
        return;
      }
      taken, s := ExtractString(Method, m);
      if taken {
        texts := texts.(cipher := s);
        return;
      }
      taken, s := ExtractString(Protocol, m);
      if taken {
        if s.Some? && s.value == VERIFY_SHA1 {
          s := None;
        }
        texts := texts.(protocol := s);
        return;
      }
      taken, s := ExtractString(ProtocolParam, m);
      if taken {
        texts := texts.(protocolParam := s);
        return;
      }
      taken, s := ExtractString(Obfs, m);
      if taken {
        texts := texts.(obfs := s);
        return;
      }
      taken, s := ExtractString(ObfsParam, m);
      if taken {
        texts := texts.(obfsParam := s);
        return;
      }
    }

    /** The flag and the timeouts of the outer object. */
    method TakeNumber(m: Member) returns (taken: bool)
      modifies this`numbers
      ensures taken ==> numbers == SetNumber(old(numbers), m.key, m.value)
      ensures !taken ==> numbers == old(numbers)
      ensures taken <==> (m.value.Flag? && m.key == Udp)
                         || (m.value.Number? && m.key in {IdleTimeout, ConnectTimeout, UdpTimeout})
    {
      var b: bool;
      var n: int;
      taken, b := ExtractBool(Udp, m);
      if taken {
        numbers := numbers.(udp := b);
        return;
      }
      taken, n := ExtractInt(IdleTimeout, m);
      if taken {
        numbers := numbers.(idleTimeout := n * MILLISECONDS_PER_SECOND);
        return;
      }
      taken, n := ExtractInt(ConnectTimeout, m);
      if taken {
        numbers := numbers.(connectTimeout := n * MILLISECONDS_PER_SECOND);
        return;
      }
      taken, n := ExtractInt(UdpTimeout, m);
      if taken {
        numbers := numbers.(udpTimeout := n * MILLISECONDS_PER_SECOND);
        return;
      }
    }

    /** One member of the client_settings object. */
    method TakeClient(m: Member)
      modifies this`client
      ensures client == SetClient(old(client), m.key, m.value)
    {
      var taken, s := ExtractString(Server, m);
      if taken {
        client := client.(remoteHost := s);
        return;
      }
      var n: int;
      taken, n := ExtractInt(ServerPort, m);
      if taken {
        client := client.(remotePort := n);
        return;
      }
      taken, s := ExtractString(ListenAddress, m);
      if taken {
        client := client.(listenHost := s);
        return;
      }
      taken, n := ExtractInt(ListenPort, m);
      if taken {
        client := client.(listenPort := n);
      }
    }

    /** One member of the over_tls_settings object. */
    method TakeTls(m: Member)
      modifies this`tls
      ensures tls == SetTls(old(tls), m.key, m.value)
    {
      var taken, b := ExtractBool(Enable, m);
      if taken {
        tls := tls.(enable := b);
        return;
      }
      var s: Option<string>;
      taken, s := ExtractString(ServerDomain, m);
      if taken {
        tls := tls.(serverDomain := s);
        return;
      }
      taken, s := ExtractString(Path, m);
      if taken {
        tls := tls.(path := s);
        return;
      }
      taken, s := ExtractString(RootCertFile, m);
      if taken {
        tls := tls.(rootCertFile := s);
      }
    }

    /** The nested loops. */
    method TakeObject(m: Member) returns (taken: bool)
      modifies this`client, this`tls
      ensures taken ==> Value() == Set(old(Value()), m.key, m.value)
      ensures !taken ==> Value() == old(Value())
      ensures taken <==> m.value.Object? && (m.key == ClientSettings || m.key == OverTlsSettings)
    {
      var ms: seq<Member>;
      taken, ms := ExtractObject(ClientSettings, m);
      if taken {
        var i := 0;
        while i < |ms|
          invariant i <= |ms| && tls == old(tls) && client == SetAllClient(old(client), ms[..i])
        {
          TakeClient(ms[i]);
          i := i + 1;
          assert ms[..i][..i - 1] == ms[..i - 1];
        }
        assert ms[..i] == ms;
        return;
      }
      taken, ms := ExtractObject(OverTlsSettings, m);
      if taken {
        var i := 0;
        while i < |ms|
          invariant i <= |ms| && client == old(client) && tls == SetAllTls(old(tls), ms[..i])
        {
          TakeTls(ms[i]);
          i := i + 1;
          assert ms[..i][..i - 1] == ms[..i - 1];
        }
        assert ms[..i] == ms;
      }
    }

    /** One turn of the outer loop. */
    method Take(m: Member)
      modifies this
      ensures Value() == Set(old(Value()), m.key, m.value)
    {
      var taken := TakeText(m);
      if taken {
        return;
      }
      taken := TakeNumber(m);
      if taken {
        return;
      }
      taken := TakeObject(m);
    }
  }

  /** parse_config_from_json: a null object gives a null configuration, and so does config_create without
      memory. */
  method ParseConfig(jso: Option<seq<Member>>, defaults: Settings, memory: bool) returns (config: Config?)
    ensures config != null <==> jso.Some? && memory
    ensures config != null ==> fresh(config) && config.Value() == SetAll(defaults, jso.value)
  {
    config := null;
    if jso.None? {
      return;
    }
    if !memory {
      return;
    }
    var c := new Config(defaults);
    var ms, i := jso.value, 0;
    while i < |ms|
      invariant i <= |ms| && c.Value() == SetAll(defaults, ms[..i])
    {
      c.Take(ms[i]);
      i := i + 1;
      assert ms[..i][..i - 1] == ms[..i - 1];
    }
    assert ms[..i] == ms;
    config := c;
  }

  // ----- the order of the keys -----

  /** The same members in any order. */
  predicate Reordered(a: seq<Member>, b: seq<Member>) {
    Distinct(a) && Distinct(b) && (forall m | m in a :: m in b) && (forall m | m in b :: m in a)
  }

  /** The same value, except that the members of an object may come in another order. */
  predicate SameValue(v: Value, w: Value) {
    v == w || (v.Object? && w.Object? && Reordered(v.members, w.members))
  }

  predicate SameFound(x: Option<Value>, y: Option<Value>) {
    if x.Some? && y.Some? then SameValue(x.value, y.value) else x == y
  }

  /** Every member of `a` is in `b`, up to the order of its own members. */
  ghost predicate Covered(a: seq<Member>, b: seq<Member>) {
    forall m | m in a :: exists w :: SameValue(m.value, w) && Member(m.key, w) in b
  }

  /** Objects that agree up to the order of the keys at both levels. */
  ghost predicate Alike(a: seq<Member>, b: seq<Member>) {
    Distinct(a) && Distinct(b) && Covered(a, b) && Covered(b, a)
  }

  /** What is found in one object is found in the other. */
  lemma {:induction false} FoundAlike(a: seq<Member>, b: seq<Member>, k: Key)
    requires Alike(a, b) && Find(a, k).Some?
    ensures Find(b, k).Some? && SameValue(Find(a, k).value, Find(b, k).value)
  {
    FindIs(a, k);
    FindIs(b, k);
    var m := Member(k, Find(a, k).value);
    assert m in a;
    var w :| SameValue(m.value, w) && Member(k, w) in b;
    assert Find(b, k) == Some(w);
  }

  lemma {:induction false} AlikeFinds(a: seq<Member>, b: seq<Member>, k: Key)
    requires Alike(a, b)
    ensures SameFound(Find(a, k), Find(b, k))
  {
    if Find(a, k).Some? {
      FoundAlike(a, b, k);
    }
    if Find(b, k).Some? {
      FoundAlike(b, a, k);
    }
  }

  lemma {:induction false} FoundReordered(a: seq<Member>, b: seq<Member>, k: Key)
    requires Reordered(a, b) && Find(a, k).Some?
    ensures Find(b, k) == Find(a, k)
  {
    FindIs(a, k);
    FindIs(b, k);
    assert Member(k, Find(a, k).value) in b;
  }

  lemma {:induction false} ReorderedFinds(a: seq<Member>, b: seq<Member>, k: Key)
    requires Reordered(a, b)
    ensures Find(a, k) == Find(b, k)
  {
    if Find(a, k).Some? {
      FoundReordered(a, b, k);
    }
    if Find(b, k).Some? {
      FoundReordered(b, a, k);
    }
  }

  // What each field is, by the member that sets it.

  function TextOr(v: Option<Value>, old': Option<string>): Option<string> {
    if v.Some? && v.value.Text? then Some(v.value.s) else old'
  }

  function NumberOr(v: Option<Value>, old': int): int {
    if v.Some? && v.value.Number? then v.value.n else old'
  }

  function TimeOr(v: Option<Value>, old': int): int {
    if v.Some? && v.value.Number? then v.value.n * MILLISECONDS_PER_SECOND else old'
  }

  function FlagOr(v: Option<Value>, old': bool): bool {
    if v.Some? && v.value.Flag? then v.value.b else old'
  }

  function ProtocolOr(v: Option<Value>, old': Option<string>): Option<string> {
    if v.Some? && v.value.Text? then Accepted(v.value.s) else old'
  }

  function TextsBy(t: Texts, ms: seq<Member>): Texts {
    Texts(TextOr(Find(ms, Remarks), t.remarks), TextOr(Find(ms, Password), t.password),
          TextOr(Find(ms, Method), t.cipher), ProtocolOr(Find(ms, Protocol), t.protocol),
          TextOr(Find(ms, ProtocolParam), t.protocolParam), TextOr(Find(ms, Obfs), t.obfs),
          TextOr(Find(ms, ObfsParam), t.obfsParam))
  }

  function NumbersBy(m: Numbers, ms: seq<Member>): Numbers {
    Numbers(FlagOr(Find(ms, Udp), m.udp), TimeOr(Find(ms, IdleTimeout), m.idleTimeout),
            TimeOr(Find(ms, ConnectTimeout), m.connectTimeout), TimeOr(Find(ms, UdpTimeout), m.udpTimeout))
  }

  function ClientBy(c: Client, ms: seq<Member>): Client {
    Client(TextOr(Find(ms, Server), c.remoteHost), NumberOr(Find(ms, ServerPort), c.remotePort),
           TextOr(Find(ms, ListenAddress), c.listenHost), NumberOr(Find(ms, ListenPort), c.listenPort))
  }

  function TlsBy(t: Tls, ms: seq<Member>): Tls {
    Tls(FlagOr(Find(ms, Enable), t.enable), TextOr(Find(ms, ServerDomain), t.serverDomain),
        TextOr(Find(ms, Path), t.path), TextOr(Find(ms, RootCertFile), t.rootCertFile))
  }

  function ClientIn(c: Client, v: Option<Value>): Client {
    if v.Some? && v.value.Object? then ClientBy(c, v.value.members) else c
  }

  function TlsIn(t: Tls, v: Option<Value>): Tls {
    if v.Some? && v.value.Object? then TlsBy(t, v.value.members) else t
  }

  function SettingsBy(c: Settings, ms: seq<Member>): Settings {
    Settings(TextsBy(c.texts, ms), NumbersBy(c.numbers, ms), ClientIn(c.client, Find(ms, ClientSettings)),
             TlsIn(c.tls, Find(ms, OverTlsSettings)))
  }

  /** Every value in the file is an object without repeated keys, or no object. */
  predicate Regular(ms: seq<Member>) {
    Distinct(ms) && forall m | m in ms && m.value.Object? :: Distinct(m.value.members)
  }

  lemma Unset(ms: seq<Member>)
    requires Distinct(ms) && |ms| > 0
    ensures Find(ms[..|ms| - 1], ms[|ms| - 1].key) == None && Distinct(ms[..|ms| - 1])
  {
    FindIs(ms[..|ms| - 1], ms[|ms| - 1].key);
  }

  lemma {:induction false} ClientIs(c: Client, ms: seq<Member>)
    requires Distinct(ms)
    ensures SetAllClient(c, ms) == ClientBy(c, ms)
    decreases |ms|
  {
    if |ms| > 0 {
      Unset(ms);
      ClientIs(c, ms[..|ms| - 1]);
    }
  }

  lemma {:induction false} TlsIs(t: Tls, ms: seq<Member>)
    requires Distinct(ms)
    ensures SetAllTls(t, ms) == TlsBy(t, ms)
    decreases |ms|
  {
    if |ms| > 0 {
      Unset(ms);
      TlsIs(t, ms[..|ms| - 1]);
    }
  }

  lemma TextsStep(t: Texts, ms: seq<Member>, rest: seq<Member>, k: Key, v: Value)
    requires |ms| > 0 && Distinct(ms) && rest == ms[..|ms| - 1] && Member(k, v) == ms[|ms| - 1]
    ensures TextsBy(t, ms) == SetText(TextsBy(t, rest), k, v)
  {
    Unset(ms);
  }

  lemma NumbersStep(m: Numbers, ms: seq<Member>, rest: seq<Member>, k: Key, v: Value)
    requires |ms| > 0 && Distinct(ms) && rest == ms[..|ms| - 1] && Member(k, v) == ms[|ms| - 1]
    ensures NumbersBy(m, ms) == SetNumber(NumbersBy(m, rest), k, v)
  {
    Unset(ms);
  }

  lemma {:induction false} ClientStep(c: Client, ms: seq<Member>, rest: seq<Member>, k: Key, v: Value)
    requires |ms| > 0 && Regular(ms) && rest == ms[..|ms| - 1] && Member(k, v) == ms[|ms| - 1]
    ensures ClientIn(c, Find(ms, ClientSettings))
            == if k == ClientSettings && v.Object? then SetAllClient(c, v.members) else ClientIn(c, Find(rest,
                ClientSettings))
  {
    Unset(ms);
    assert Member(k, v) in ms;
    if k == ClientSettings && v.Object? {
      ClientIs(c, v.members);
    }
  }

  lemma {:induction false} TlsStep(t: Tls, ms: seq<Member>, rest: seq<Member>, k: Key, v: Value)
    requires |ms| > 0 && Regular(ms) && rest == ms[..|ms| - 1] && Member(k, v) == ms[|ms| - 1]
    ensures TlsIn(t, Find(ms, OverTlsSettings))
            == if k == OverTlsSettings && v.Object? then SetAllTls(t, v.members) else TlsIn(t, Find(rest,
                OverTlsSettings))
  {
    Unset(ms);
    assert Member(k, v) in ms;
    if k == OverTlsSettings && v.Object? {
      TlsIs(t, v.members);
    }
  }

  /** A key that was set before is not set again. */
  lemma {:induction false} NotBefore(c: Settings, ms: seq<Member>, rest: seq<Member>, k: Key, v: Value)
    requires |ms| > 0 && Regular(ms) && rest == ms[..|ms| - 1] && Member(k, v) == ms[|ms| - 1]
    ensures k == ClientSettings ==> ClientIn(c.client, Find(rest, ClientSettings)) == c.client
    ensures k == OverTlsSettings ==> TlsIn(c.tls, Find(rest, OverTlsSettings)) == c.tls
  {
    Unset(ms);
  }

  /** Set, part by part. */
  lemma SetParts(c: Settings, k: Key, v: Value)
    ensures Set(c, k, v) == Settings(
              SetText(c.texts, k, v), SetNumber(c.numbers, k, v),
              if k == ClientSettings && v.Object? then SetAllClient(c.client, v.members) else c.client,
              if k == OverTlsSettings && v.Object? then SetAllTls(c.tls, v.members) else c.tls)
  {
  }

  lemma SettingsStep(c: Settings, ms: seq<Member>, rest: seq<Member>, k: Key, v: Value)
    requires |ms| > 0 && Regular(ms) && rest == ms[..|ms| - 1] && Member(k, v) == ms[|ms| - 1]
    ensures SettingsBy(c, ms) == Set(SettingsBy(c, rest), k, v)
  {
    TextsStep(c.texts, ms, rest, k, v);
    NumbersStep(c.numbers, ms, rest, k, v);
    ClientStep(c.client, ms, rest, k, v);
    TlsStep(c.tls, ms, rest, k, v);
    NotBefore(c, ms, rest, k, v);
    SetParts(SettingsBy(c, rest), k, v);
  }

  /** The configuration is determined by the values found under the known keys. */
  lemma {:induction false} SettingsAre(c: Settings, ms: seq<Member>)
    requires Regular(ms)
    ensures SetAll(c, ms) == SettingsBy(c, ms)
    decreases |ms|
  {
    if |ms| > 0 {
      var rest, m := ms[..|ms| - 1], ms[|ms| - 1];
      SettingsAre(c, rest);
      SettingsStep(c, ms, rest, m.key, m.value);
    }
  }

  lemma ClientSame(c: Client, a: seq<Member>, b: seq<Member>)
    requires Reordered(a, b)
    ensures ClientBy(c, a) == ClientBy(c, b)
  {
    ReorderedFinds(a, b, Server);
    ReorderedFinds(a, b, ServerPort);
    ReorderedFinds(a, b, ListenAddress);
    ReorderedFinds(a, b, ListenPort);
  }

  lemma TlsSame(t: Tls, a: seq<Member>, b: seq<Member>)
    requires Reordered(a, b)
    ensures TlsBy(t, a) == TlsBy(t, b)
  {
    ReorderedFinds(a, b, Enable);
    ReorderedFinds(a, b, ServerDomain);
    ReorderedFinds(a, b, Path);
    ReorderedFinds(a, b, RootCertFile);
  }

  lemma TextsSame(t: Texts, a: seq<Member>, b: seq<Member>)
    requires Alike(a, b)
    ensures TextsBy(t, a) == TextsBy(t, b)
  {
    AlikeFinds(a, b, Remarks);
    AlikeFinds(a, b, Password);
    AlikeFinds(a, b, Method);
    AlikeFinds(a, b, Protocol);
    AlikeFinds(a, b, ProtocolParam);
    AlikeFinds(a, b, Obfs);
    AlikeFinds(a, b, ObfsParam);
  }

  lemma NumbersSame(m: Numbers, a: seq<Member>, b: seq<Member>)
    requires Alike(a, b)
    ensures NumbersBy(m, a) == NumbersBy(m, b)
  {
    AlikeFinds(a, b, Udp);
    AlikeFinds(a, b, IdleTimeout);
    AlikeFinds(a, b, ConnectTimeout);
    AlikeFinds(a, b, UdpTimeout);
  }

  /** For objects with distinct keys the configuration does not depend on the order of the keys, at either
      level. */
  lemma {:induction false} OrderDoesNotMatter(c: Settings, a: seq<Member>, b: seq<Member>)
    requires Regular(a) && Regular(b) && Alike(a, b)
    ensures SetAll(c, a) == SetAll(c, b)
  {
    SettingsAre(c, a);
    SettingsAre(c, b);
    TextsSame(c.texts, a, b);
    NumbersSame(c.numbers, a, b);
    AlikeFinds(a, b, ClientSettings);
    AlikeFinds(a, b, OverTlsSettings);
    var x, y := Find(a, ClientSettings), Find(b, ClientSettings);
    if x.Some? && x.value.Object? && x != y {
      ClientSame(c.client, x.value.members, y.value.members);
    }
    var u, w := Find(a, OverTlsSettings), Find(b, OverTlsSettings);
    if u.Some? && u.value.Object? && u != w {
      TlsSame(c.tls, u.value.members, w.value.members);
    }
  }

  // ----- the builder -----

  /** A cast to a 32-bit integer. */
  function Int32(n: int): (r: int)
    ensures -0x8000_0000 <= r < 0x8000_0000
  {
    (n + 0x8000_0000) % 0x1_0000_0000 - 0x8000_0000
  }

  /** The strings that the builder passes on without a null check are present. */
  predicate Buildable(c: Settings) {
    TextsBuildable(c.texts) && ClientBuildable(c.client)
  }

  predicate TextsBuildable(t: Texts) {
    t.remarks.Some? && t.password.Some? && t.cipher.Some? && t.protocol.Some? && t.obfs.Some?
  }

  predicate ClientBuildable(c: Client) {
    c.remoteHost.Some? && c.listenHost.Some?
  }

  function OrEmpty(s: Option<string>): string {
    if s.Some? then s.value else ""
  }

  /** A division as C does it: a negative quotient is rounded toward zero too. */
  function InSeconds(n: int): int {
    if n >= 0 then n / MILLISECONDS_PER_SECOND else -(-n / MILLISECONDS_PER_SECOND)
  }

  function Seconds(n: int): int {
    Int32(InSeconds(n))
  }

  function BuildClient(c: Client): seq<Member>
    requires ClientBuildable(c)
  {
    [Member(Server, Text(c.remoteHost.value)), Member(ServerPort, Number(Int32(c.remotePort))),
     Member(ListenAddress, Text(c.listenHost.value)), Member(ListenPort, Number(Int32(c.listenPort)))]
  }

  function BuildTls(t: Tls): seq<Member> {
    [Member(Enable, Flag(t.enable)), Member(ServerDomain, Text(OrEmpty(t.serverDomain))),
     Member(Path, Text(OrEmpty(t.path)))]
  }

  function BuildTexts(t: Texts): seq<Member>
    requires TextsBuildable(t)
  {
    [Member(Remarks, Text(t.remarks.value)), Member(Password, Text(t.password.value)),
     Member(Method, Text(t.cipher.value)), Member(Protocol, Text(t.protocol.value)),
     Member(ProtocolParam, Text(OrEmpty(t.protocolParam))), Member(Obfs, Text(t.obfs.value)),
     Member(ObfsParam, Text(OrEmpty(t.obfsParam)))]
  }

  function BuildNumbers(m: Numbers): seq<Member> {
    [Member(Udp, Flag(m.udp)), Member(IdleTimeout, Number(Seconds(m.idleTimeout))),
     Member(ConnectTimeout, Number(Seconds(m.connectTimeout))), Member(UdpTimeout, Number(Seconds(m.udpTimeout)))]
  }

  function BuildObjects(c: Client, t: Tls): seq<Member>
    requires ClientBuildable(c)
  {
    [Member(ClientSettings, Object(BuildClient(c))), Member(OverTlsSettings, Object(BuildTls(t)))]
  }

  /** What build_json_from_config leaves in its object. */
  function Build(c: Settings): seq<Member>
    requires Buildable(c)
  {
    BuildTexts(c.texts) + BuildNumbers(c.numbers) + BuildObjects(c.client, c.tls)
  }

  // What the object holds, told by its members alone.

  /** `s` whole seconds are what `n` milliseconds come to, rounded toward zero. */
  predicate Truncated(n: int, s: int) {
    if n >= 0 then s * 1000 <= n < (s + 1) * 1000 else (s - 1) * 1000 < n <= s * 1000
  }

  /** A number that is `n` up to multiples of 2^32, in the range of 32 bits. */
  predicate Casts(v: Option<Value>, n: int) {
    && v.Some? && v.value.Number? && -0x8000_0000 <= v.value.n < 0x8000_0000
    && (v.value.n - n) % 0x1_0000_0000 == 0
  }

  ghost predicate CastsSeconds(v: Option<Value>, n: int) {
    exists s :: Truncated(n, s) && Casts(v, s)
  }

  ghost predicate DescribesClient(v: Option<Value>, c: Client)
    requires ClientBuildable(c)
  {
    && v.Some? && v.value.Object? && |v.value.members| == 4 && Distinct(v.value.members)
    && Find(v.value.members, Server) == Some(Text(c.remoteHost.value))
    && Casts(Find(v.value.members, ServerPort), c.remotePort)
    && Find(v.value.members, ListenAddress) == Some(Text(c.listenHost.value))
    && Casts(Find(v.value.members, ListenPort), c.listenPort)
  }

  ghost predicate DescribesTls(v: Option<Value>, t: Tls) {
    && v.Some? && v.value.Object? && |v.value.members| == 3 && Distinct(v.value.members)
    && Find(v.value.members, Enable) == Some(Flag(t.enable))
    && Find(v.value.members, ServerDomain) == Some(Text(if t.serverDomain.Some? then t.serverDomain.value else ""))
    && Find(v.value.members, Path) == Some(Text(if t.path.Some? then t.path.value else ""))
  }

  ghost predicate DescribesTexts(ms: seq<Member>, t: Texts)
    requires TextsBuildable(t)
  {
    && Find(ms, Remarks) == Some(Text(t.remarks.value))
    && Find(ms, Password) == Some(Text(t.password.value))
    && Find(ms, Method) == Some(Text(t.cipher.value))
    && Find(ms, Protocol) == Some(Text(t.protocol.value))
    && Find(ms, ProtocolParam) == Some(Text(if t.protocolParam.Some? then t.protocolParam.value else ""))
    && Find(ms, Obfs) == Some(Text(t.obfs.value))
    && Find(ms, ObfsParam) == Some(Text(if t.obfsParam.Some? then t.obfsParam.value else ""))
  }

  ghost predicate DescribesNumbers(ms: seq<Member>, m: Numbers) {
    && Find(ms, Udp) == Some(Flag(m.udp))
    && CastsSeconds(Find(ms, IdleTimeout), m.idleTimeout)
    && CastsSeconds(Find(ms, ConnectTimeout), m.connectTimeout)
    && CastsSeconds(Find(ms, UdpTimeout), m.udpTimeout)
  }

  /** The object has thirteen members, one under each key. */
  ghost predicate Describes(ms: seq<Member>, c: Settings)
    requires Buildable(c)
  {
    && |ms| == 13 && Distinct(ms) && DescribesTexts(ms, c.texts) && DescribesNumbers(ms, c.numbers)
    && DescribesClient(Find(ms, ClientSettings), c.client) && DescribesTls(Find(ms, OverTlsSettings), c.tls)
  }

  lemma TruncatedIs(n: int, s: int)
    ensures Truncated(n, s) <==> s == InSeconds(n)
  {
  }

  lemma CastsIs(v: Value, n: int)
    ensures Casts(Some(v), n) <==> v == Number(Int32(n))
  {
  }

  lemma SecondsIs(n: int)
    ensures CastsSeconds(Some(Number(Seconds(n))), n)
  {
    TruncatedIs(n, InSeconds(n));
    CastsIs(Number(Seconds(n)), InSeconds(n));
  }

  /** A member is found under its key. */
  lemma {:induction false} FindAt(ms: seq<Member>, i: nat, m: Member)
    requires Distinct(ms) && i < |ms| && ms[i] == m
    ensures Find(ms, m.key) == Some(m.value)
  {
    FindIs(ms, m.key);
    assert Member(m.key, m.value) in ms;
  }

  lemma {:induction false} BuiltClient(c: Client)
    requires ClientBuildable(c)
    ensures DescribesClient(Some(Object(BuildClient(c))), c)
  {
    var ms := BuildClient(c);
    FindAt(ms, 0, ms[0]);
    FindAt(ms, 1, ms[1]);
    FindAt(ms, 2, ms[2]);
    FindAt(ms, 3, ms[3]);
    CastsIs(ms[1].value, c.remotePort);
    CastsIs(ms[3].value, c.listenPort);
  }

  lemma {:induction false} BuiltTls(t: Tls)
    ensures DescribesTls(Some(Object(BuildTls(t))), t)
  {
    var ms := BuildTls(t);
    FindAt(ms, 0, ms[0]);
    FindAt(ms, 1, ms[1]);
    FindAt(ms, 2, ms[2]);
  }

  /** Where each member of the object stands. */
  lemma BuildAt(c: Settings)
    requires Buildable(c)
    ensures |Build(c)| == 13
    ensures forall i | 0 <= i < 7 :: Build(c)[i] == BuildTexts(c.texts)[i]
    ensures forall i | 7 <= i < 11 :: Build(c)[i] == BuildNumbers(c.numbers)[i - 7]
    ensures forall i | 11 <= i < 13 :: Build(c)[i] == BuildObjects(c.client, c.tls)[i - 11]
  {
  }

  lemma {:induction false} BuildDistinct(c: Settings)
    requires Buildable(c)
    ensures Distinct(Build(c))
  {
    BuildAt(c);
  }

  lemma {:induction false} BuiltTexts(ms: seq<Member>, t: Texts)
    requires TextsBuildable(t) && Distinct(ms) && |ms| >= 7 && forall i | 0 <= i < 7 :: ms[i] == BuildTexts(t)[i]
    ensures DescribesTexts(ms, t)
  {
    FindAt(ms, 0, BuildTexts(t)[0]);
    FindAt(ms, 1, BuildTexts(t)[1]);
    FindAt(ms, 2, BuildTexts(t)[2]);
    FindAt(ms, 3, BuildTexts(t)[3]);
    FindAt(ms, 4, BuildTexts(t)[4]);
    FindAt(ms, 5, BuildTexts(t)[5]);
    FindAt(ms, 6, BuildTexts(t)[6]);
  }

  lemma {:induction false} BuiltNumbers(ms: seq<Member>, m: Numbers)
    requires Distinct(ms) && |ms| >= 11 && forall i | 7 <= i < 11 :: ms[i] == BuildNumbers(m)[i - 7]
    ensures DescribesNumbers(ms, m)
  {
    FindAt(ms, 7, Member(Udp, Flag(m.udp)));
    FindAt(ms, 8, Member(IdleTimeout, Number(Seconds(m.idleTimeout))));
    FindAt(ms, 9, Member(ConnectTimeout, Number(Seconds(m.connectTimeout))));
    FindAt(ms, 10, Member(UdpTimeout, Number(Seconds(m.udpTimeout))));
    SecondsIs(m.idleTimeout);
    SecondsIs(m.connectTimeout);
    SecondsIs(m.udpTimeout);
  }

  lemma {:induction false} BuiltObjects(ms: seq<Member>, c: Client, t: Tls)
    requires ClientBuildable(c) && Distinct(ms) && |ms| == 13
    requires ms[11] == BuildObjects(c, t)[0] && ms[12] == BuildObjects(c, t)[1]
    ensures DescribesClient(Find(ms, ClientSettings), c) && DescribesTls(Find(ms, OverTlsSettings), t)
  {
    FindAt(ms, 11, ms[11]);
    FindAt(ms, 12, ms[12]);
    BuiltClient(c);
    BuiltTls(t);
  }

  lemma {:induction false} Built(c: Settings, ms: seq<Member>)
    requires Buildable(c) && ms == Build(c)
    ensures Describes(ms, c)
  {
    BuildAt(c);
    BuildDistinct(c);
    BuiltTexts(ms, c.texts);
    BuiltNumbers(ms, c.numbers);
    BuiltObjects(ms, c.client, c.tls);
  }

  /** A JSON object under construction: members are added one at a time. */
  class JsonObject {
    var members: seq<Member>

    constructor ()
      ensures members == []
    {
      members := [];
    }

    /** json_object_object_add of a key that is not present yet. */
    method Add(key: Key, value: Value)
      modifies this
      ensures members == old(members) + [Member(key, value)]
    {
      members := members + [Member(key, value)];
    }
  }

  /** The first part of build_json_from_config. */
  method AddTexts(jso: JsonObject, t: Texts)
    requires TextsBuildable(t)
    modifies jso
    ensures jso.members == old(jso.members) + BuildTexts(t)
  {
    jso.Add(Remarks, Text(t.remarks.value));
    jso.Add(Password, Text(t.password.value));
    jso.Add(Method, Text(t.cipher.value));
    jso.Add(Protocol, Text(t.protocol.value));
    jso.Add(ProtocolParam, Text(if t.protocolParam.Some? then t.protocolParam.value else ""));
    jso.Add(Obfs, Text(t.obfs.value));
    jso.Add(ObfsParam, Text(if t.obfsParam.Some? then t.obfsParam.value else ""));
  }

  method AddNumbers(jso: JsonObject, m: Numbers)
    modifies jso
    ensures jso.members == old(jso.members) + BuildNumbers(m)
  {
    jso.Add(Udp, Flag(m.udp));
    jso.Add(IdleTimeout, Number(Int32(InSeconds(m.idleTimeout))));
    jso.Add(ConnectTimeout, Number(Int32(InSeconds(m.connectTimeout))));
    jso.Add(UdpTimeout, Number(Int32(InSeconds(m.udpTimeout))));
  }

  method NewClient(c: Client) returns (client: JsonObject)
    requires ClientBuildable(c)
    ensures fresh(client) && client.members == BuildClient(c)
  {
    client := new JsonObject();
    client.Add(Server, Text(c.remoteHost.value));
    client.Add(ServerPort, Number(Int32(c.remotePort)));
    client.Add(ListenAddress, Text(c.listenHost.value));
    client.Add(ListenPort, Number(Int32(c.listenPort)));
  }

  method NewTls(t: Tls) returns (tls: JsonObject)
    ensures fresh(tls) && tls.members == BuildTls(t)
  {
    tls := new JsonObject();
    tls.Add(Enable, Flag(t.enable));
    tls.Add(ServerDomain, Text(if t.serverDomain.Some? then t.serverDomain.value else ""));
    tls.Add(Path, Text(if t.path.Some? then t.path.value else ""));
  }

  method AddObjects(jso: JsonObject, c: Client, t: Tls)
    requires ClientBuildable(c)
    modifies jso
    ensures jso.members == old(jso.members) + BuildObjects(c, t)
  {
    var client := NewClient(c);
    jso.Add(ClientSettings, Object(client.members));
    var tls := NewTls(t);
    jso.Add(OverTlsSettings, Object(tls.members));
  }

  /** build_json_from_config. */
  method BuildJson(config: Config) returns (jso: JsonObject)
    requires Buildable(config.Value())
    ensures fresh(jso) && jso.members == Build(config.Value()) && Describes(jso.members, config.Value())
  {
    jso := new JsonObject();
    AddTexts(jso, config.texts);
    AddNumbers(jso, config.numbers);
    AddObjects(jso, config.client, config.tls);
    Built(config.Value(), jso.members);
  }

  // ----- saving and loading again -----

  lemma Int32Same(n: int)
    ensures Int32(n) == n <==> FitsInt32(n)
  {
  }

  predicate FitsInt32(n: int) {
    -0x8000_0000 <= n < 0x8000_0000
  }

  /** A number of milliseconds whose whole seconds fit in 32 bits. */
  predicate FitsSeconds(n: int) {
    -0x8000_0001 * 1000 < n < 0x8000_0000 * 1000
  }

  /** The numbers survive the casts. */
  predicate InRange(c: Settings) {
    && FitsSeconds(c.numbers.idleTimeout) && FitsSeconds(c.numbers.connectTimeout) && FitsSeconds(c.numbers.udpTimeout)
    && FitsInt32(c.client.remotePort) && FitsInt32(c.client.listenPort)
  }

  /** Rounded toward zero to whole seconds. */
  function WholeSeconds(n: int): int {
    InSeconds(n) * MILLISECONDS_PER_SECOND
  }

  /** What is left of a configuration after it has been saved and loaded again. */
  function Saved(c: Settings, defaults: Settings): Settings
    requires Buildable(c)
  {
    Settings(
      c.texts.(protocol := Accepted(c.texts.protocol.value),
               protocolParam := Some(OrEmpty(c.texts.protocolParam)), obfsParam := Some(OrEmpty(c.texts.obfsParam))),
      Numbers(c.numbers.udp, WholeSeconds(c.numbers.idleTimeout), WholeSeconds(c.numbers.connectTimeout),
              WholeSeconds(c.numbers.udpTimeout)),
      c.client,
      Tls(c.tls.enable, Some(OrEmpty(c.tls.serverDomain)), Some(OrEmpty(c.tls.path)), defaults.tls.rootCertFile))
  }

  lemma {:induction false} SetAppend(c: Settings, a: seq<Member>, b: seq<Member>)
    ensures SetAll(c, a + b) == SetAll(SetAll(c, a), b)
    decreases |b|
  {
    if |b| == 0 {
      assert a + b == a;
    } else {
      assert (a + b)[..|a + b| - 1] == a + b[..|b| - 1];
      SetAppend(c, a, b[..|b| - 1]);
    }
  }

  lemma LoadTexts(c: Settings, t: Texts) returns (r: Settings)
    requires TextsBuildable(t)
    ensures r == c.(texts := t.(protocol := Accepted(t.protocol.value), protocolParam := Some(OrEmpty(t.protocolParam)),
                                obfsParam := Some(OrEmpty(t.obfsParam))))
    ensures r == SetAll(c, BuildTexts(t))
  {
    var ms := BuildTexts(t);
    r := c;
    for i := 0 to |ms|
      invariant r == SetAll(c, ms[..i]) && r.numbers == c.numbers && r.client == c.client && r.tls == c.tls
      invariant i >= 1 ==> r.texts.remarks == t.remarks
      invariant i >= 2 ==> r.texts.password == t.password
      invariant i >= 3 ==> r.texts.cipher == t.cipher
      invariant i >= 4 ==> r.texts.protocol == Accepted(t.protocol.value)
      invariant i >= 5 ==> r.texts.protocolParam == Some(OrEmpty(t.protocolParam))
      invariant i >= 6 ==> r.texts.obfs == t.obfs
      invariant i >= 7 ==> r.texts.obfsParam == Some(OrEmpty(t.obfsParam))
    {
      assert ms[..i + 1][..i] == ms[..i];
      r := Set(r, ms[i].key, ms[i].value);
    }
    assert ms[..|ms|] == ms;
  }

  lemma LoadNumbers(c: Settings, m: Numbers) returns (r: Settings)
    ensures r == c.(numbers := Numbers(m.udp, Seconds(m.idleTimeout) * MILLISECONDS_PER_SECOND,
                                       Seconds(m.connectTimeout) * MILLISECONDS_PER_SECOND,
                                       Seconds(m.udpTimeout) * MILLISECONDS_PER_SECOND))
    ensures r == SetAll(c, BuildNumbers(m))
  {
    var ms := BuildNumbers(m);
    r := c;
    for i := 0 to |ms|
      invariant r == SetAll(c, ms[..i]) && r.texts == c.texts && r.client == c.client && r.tls == c.tls
      invariant i >= 1 ==> r.numbers.udp == m.udp
      invariant i >= 2 ==> r.numbers.idleTimeout == Seconds(m.idleTimeout) * MILLISECONDS_PER_SECOND
      invariant i >= 3 ==> r.numbers.connectTimeout == Seconds(m.connectTimeout) * MILLISECONDS_PER_SECOND
      invariant i >= 4 ==> r.numbers.udpTimeout == Seconds(m.udpTimeout) * MILLISECONDS_PER_SECOND
    {
      assert ms[..i + 1][..i] == ms[..i];
      r := Set(r, ms[i].key, ms[i].value);
    }
    assert ms[..|ms|] == ms;
  }

  lemma LoadClient(c: Client, b: Client) returns (r: Client)
    requires ClientBuildable(b)
    ensures r == Client(b.remoteHost, Int32(b.remotePort), b.listenHost, Int32(b.listenPort))
    ensures r == SetAllClient(c, BuildClient(b))
  {
    var ms := BuildClient(b);
    r := c;
    for i := 0 to |ms|
      invariant r == SetAllClient(c, ms[..i])
      invariant i >= 1 ==> r.remoteHost == b.remoteHost
      invariant i >= 2 ==> r.remotePort == Int32(b.remotePort)
      invariant i >= 3 ==> r.listenHost == b.listenHost
      invariant i >= 4 ==> r.listenPort == Int32(b.listenPort)
    {
      assert ms[..i + 1][..i] == ms[..i];
      r := SetClient(r, ms[i].key, ms[i].value);
    }
    assert ms[..|ms|] == ms;
  }

  lemma LoadTls(c: Tls, b: Tls) returns (r: Tls)
    ensures r == Tls(b.enable, Some(OrEmpty(b.serverDomain)), Some(OrEmpty(b.path)), c.rootCertFile)
    ensures r == SetAllTls(c, BuildTls(b))
  {
    var ms := BuildTls(b);
    r := c;
    for i := 0 to |ms|
      invariant r == SetAllTls(c, ms[..i]) && r.rootCertFile == c.rootCertFile
      invariant i >= 1 ==> r.enable == b.enable
      invariant i >= 2 ==> r.serverDomain == Some(OrEmpty(b.serverDomain))
      invariant i >= 3 ==> r.path == Some(OrEmpty(b.path))
    {
      assert ms[..i + 1][..i] == ms[..i];
      r := SetTls(r, ms[i].key, ms[i].value);
    }
    assert ms[..|ms|] == ms;
  }

  lemma LoadObjects(c: Settings, b: Client, t: Tls) returns (r: Settings)
    requires ClientBuildable(b)
    ensures r == c.(client := Client(b.remoteHost, Int32(b.remotePort), b.listenHost, Int32(b.listenPort)),
                    tls := Tls(t.enable, Some(OrEmpty(t.serverDomain)), Some(OrEmpty(t.path)), c.tls.rootCertFile))
    ensures r == SetAll(c, BuildObjects(b, t))
  {
    var client := LoadClient(c.client, b);
    var tls := LoadTls(c.tls, t);
    r := c.(client := client, tls := tls);
    var ms := BuildObjects(b, t);
    assert ms[..1] == [ms[0]] && ms[..1][..0] == [];
    assert SetAll(c, ms[..0]) == c;
    assert SetAll(c, ms[..1]) == Set(c, ms[0].key, ms[0].value);
  }

  /** A timeout of `n` milliseconds that comes back as `t`: whole seconds, rounded toward zero. */
  predicate BackAs(n: int, t: int) {
    t % 1000 == 0 && Truncated(n, t / 1000)
  }

  /** What comes back of `c`, field by field: the protocol verify_sha1 is lost, missing optional texts are empty, the
      timeouts are whole seconds, and the root certificate file is not saved. */
  predicate Returned(c: Settings, r: Settings, defaults: Settings)
    requires Buildable(c)
  {
    && r.texts.remarks == c.texts.remarks && r.texts.password == c.texts.password && r.texts.cipher == c.texts.cipher
    && r.texts.protocol == (if c.texts.protocol == Some("verify_sha1") then None else c.texts.protocol)
    && r.texts.protocolParam == (if c.texts.protocolParam.None? then Some("") else c.texts.protocolParam)
    && r.texts.obfs == c.texts.obfs
    && r.texts.obfsParam == (if c.texts.obfsParam.None? then Some("") else c.texts.obfsParam)
    && r.numbers.udp == c.numbers.udp && BackAs(c.numbers.idleTimeout, r.numbers.idleTimeout)
    && BackAs(c.numbers.connectTimeout, r.numbers.connectTimeout)
    && BackAs(c.numbers.udpTimeout, r.numbers.udpTimeout)
    && r.client.remoteHost == c.client.remoteHost && r.client.remotePort == c.client.remotePort
    && r.client.listenHost == c.client.listenHost && r.client.listenPort == c.client.listenPort
    && r.tls.enable == c.tls.enable && r.tls.rootCertFile == defaults.tls.rootCertFile
    && r.tls.serverDomain == (if c.tls.serverDomain.None? then Some("") else c.tls.serverDomain)
    && r.tls.path == (if c.tls.path.None? then Some("") else c.tls.path)
  }

  lemma BackIs(n: int, t: int)
    ensures BackAs(n, t) <==> t == WholeSeconds(n)
  {
    TruncatedIs(n, t / 1000);
    TruncatedIs(n, InSeconds(n));
  }

  lemma FitsIs(n: int)
    ensures FitsSeconds(n) <==> FitsInt32(InSeconds(n))
  {
  }

  lemma {:induction false} SavedIs(c: Settings, r: Settings, defaults: Settings)
    requires Buildable(c)
    ensures Returned(c, r, defaults) <==> r == Saved(c, defaults)
  {
    BackIs(c.numbers.idleTimeout, r.numbers.idleTimeout);
    BackIs(c.numbers.connectTimeout, r.numbers.connectTimeout);
    BackIs(c.numbers.udpTimeout, r.numbers.udpTimeout);
  }

  lemma {:induction false} Loaded(c: Settings, defaults: Settings)
    requires Buildable(c)
    ensures SetAll(defaults, Build(c)) == Saved(c, defaults) <==> InRange(c)
  {
    var texts := LoadTexts(defaults, c.texts);
    var numbers := LoadNumbers(texts, c.numbers);
    var objects := LoadObjects(numbers, c.client, c.tls);
    SetAppend(defaults, BuildTexts(c.texts) + BuildNumbers(c.numbers), BuildObjects(c.client, c.tls));
    SetAppend(defaults, BuildTexts(c.texts), BuildNumbers(c.numbers));
    Int32Same(InSeconds(c.numbers.idleTimeout));
    Int32Same(InSeconds(c.numbers.connectTimeout));
    Int32Same(InSeconds(c.numbers.udpTimeout));
    FitsIs(c.numbers.idleTimeout);
    FitsIs(c.numbers.connectTimeout);
    FitsIs(c.numbers.udpTimeout);
    Int32Same(c.client.remotePort);
    Int32Same(c.client.listenPort);
  }

  /** Saving and loading gives back what `Returned` says, exactly when the numbers survive the casts. */
  lemma {:induction false} SaveAndLoad(c: Settings, defaults: Settings)
    requires Buildable(c)
    ensures Returned(c, SetAll(defaults, Build(c)), defaults) <==> InRange(c)
  {
    Loaded(c, defaults);
    SavedIs(c, SetAll(defaults, Build(c)), defaults);
  }

  /** A timeout in range is saved as whole seconds, rounded toward zero, and loaded as 1000 times that. */
  lemma {:induction false} TimeoutSaved(n: int, v: Option<Value>, t: int)
    requires FitsSeconds(n) && CastsSeconds(v, n) && BackAs(n, t)
    ensures Truncated(n, v.value.n) && t == v.value.n * 1000
  {
    var s :| Truncated(n, s) && Casts(v, s);
    TruncatedIs(n, s);
    FitsIs(n);
    TruncatedIs(n, t / 1000);
  }

  /** The three timeouts: with s seconds in the saved member, the milliseconds n lie in the second s, counted toward
      zero, and s * 1000 milliseconds are loaded. */
  lemma {:induction false} TimeoutsSaved(c: Settings, defaults: Settings) returns (idle: int, connect: int, udp: int)
    requires Buildable(c) && InRange(c)
    ensures Member(IdleTimeout, Number(idle)) in Build(c)
    ensures Member(ConnectTimeout, Number(connect)) in Build(c)
    ensures Member(UdpTimeout, Number(udp)) in Build(c)
    ensures var n := c.numbers.idleTimeout;
      if n >= 0 then idle * 1000 <= n < (idle + 1) * 1000 else (idle - 1) * 1000 < n <= idle * 1000
    ensures var n := c.numbers.connectTimeout;
      if n >= 0 then connect * 1000 <= n < (connect + 1) * 1000 else (connect - 1) * 1000 < n <= connect * 1000
    ensures var n := c.numbers.udpTimeout;
      if n >= 0 then udp * 1000 <= n < (udp + 1) * 1000 else (udp - 1) * 1000 < n <= udp * 1000
    ensures SetAll(defaults, Build(c)).numbers == Numbers(c.numbers.udp, idle * 1000, connect * 1000, udp * 1000)
  {
    Built(c, Build(c));
    SaveAndLoad(c, defaults);
    var ms, r := Build(c), SetAll(defaults, Build(c)).numbers;
    FindIs(ms, IdleTimeout);
    FindIs(ms, ConnectTimeout);
    FindIs(ms, UdpTimeout);
    TimeoutSaved(c.numbers.idleTimeout, Find(ms, IdleTimeout), r.idleTimeout);
    TimeoutSaved(c.numbers.connectTimeout, Find(ms, ConnectTimeout), r.connectTimeout);
    TimeoutSaved(c.numbers.udpTimeout, Find(ms, UdpTimeout), r.udpTimeout);
    idle, connect, udp :=
      Find(ms, IdleTimeout).value.n, Find(ms, ConnectTimeout).value.n, Find(ms, UdpTimeout).value.n;
  }

  /** What was loaded can be saved again exactly when the protocol was not the one that loading drops; a second
      round then changes nothing. */
  lemma {:induction false} SecondRound(c: Settings, defaults: Settings)
    requires Buildable(c) && InRange(c)
    ensures Buildable(SetAll(defaults, Build(c))) <==> c.texts.protocol != Some("verify_sha1")
    ensures c.texts.protocol != Some("verify_sha1") ==>
              var r := SetAll(defaults, Build(c)); SetAll(defaults, Build(r)) == r
  {
    Loaded(c, defaults);
    if c.texts.protocol != Some(VERIFY_SHA1) {
      Loaded(Saved(c, defaults), defaults);
    }
  }

  /** A configuration that can be saved and loaded, and what was loaded cannot be saved. */
  lemma SecondRoundFails() returns (c: Settings)
    ensures Buildable(c) && InRange(c) && !Buildable(SetAll(c, Build(c)))
  {
    c := Settings(Texts(Some(""), Some(""), Some("none"), Some(VERIFY_SHA1), None, Some("plain"), None),
                  Numbers(false, 0, 0, 0), Client(Some("host"), 443, Some("127.0.0.1"), 1080),
                  Tls(false, None, None, None));
    SecondRound(c, c);
  }
}
