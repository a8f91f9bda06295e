/**
 The byte string that identifies a chat request: what is fed to the SHA-256 hasher to make its cache
 key. Texts are given as their UTF-8 bytes.
 */
module CacheKeyEncoding {
  import opened Wrappers
  import opened ByteStrings

  type u32 = x: nat | x < 0x1_0000_0000

  datatype Provider =
    | Ollama
    | OpenAiCompatible
    | InProcessLlama
    | OpenAi
    | Anthropic
    | Gemini
    | AzureOpenAi(deployment: Bytes, apiVersion: Bytes)
    | Http

  datatype Client = Client(provider: Provider, endpoint: Bytes, model: Bytes, defaultMaxTokens: u32)

  datatype Role = System | User | Assistant

  datatype Message = Message(role: Role, content: Bytes)

  /** `temperature` is given by its IEEE-754 bits. */
  datatype Request = Request(maxTokens: Option<u32>, temperature: Option<u32>, messages: seq<Message>)

  function Ascii(s: string): (b: Bytes)
    requires forall i :: 0 <= i < |s| ==> s[i] <= '\U{7F}'
    ensures |b| == |s| && forall i :: 0 <= i < |s| ==> b[i] as int == s[i] as int
  {
    if s == [] then [] else [(s[0] as int) as byte] + Ascii(s[1..])
  }

  /** `provider_label`. */
  function LabelText(p: Provider): string {
    match p
    case Ollama => "ollama"
    case OpenAiCompatible => "openai_compatible"
    case InProcessLlama => "in_process_llama"
    case OpenAi => "openai"
    case Anthropic => "anthropic"
    case Gemini => "gemini"
    case AzureOpenAi(_, _) => "azure_openai"
    case Http => "http"
  }

  lemma LabelIsAscii(p: Provider)
    ensures |LabelText(p)| < 256 && forall i :: 0 <= i < |LabelText(p)| ==> LabelText(p)[i] <= '\U{7F}'
  {
  }

  function Label(p: Provider): (b: Bytes)
    ensures |b| < 256
  {
    LabelIsAscii(p);
    Ascii(LabelText(p))
  }

  const NAMESPACE: Bytes := Ascii("ai_chat_v1")

  function RoleName(r: Role): Bytes {
    match r
    case System => Ascii("system")
    case User => Ascii("user")
    case Assistant => Ascii("assistant")
  }

  // ----- fields

  function Pow256(k: nat): (p: nat)
    ensures p >= 1
  {
    if k == 0 then 1 else 256 * Pow256(k - 1)
  }

  /** `to_le_bytes` of a `k`-byte integer. */
  function Le(n: nat, k: nat): (b: Bytes)
    ensures |b| == k
  {
    if k == 0 then [] else [(n % 256) as byte] + Le(n / 256, k - 1)
  }

  /** The number whose bytes these are, least significant first. */
  function OfLe(b: Bytes): nat {
    if b == [] then 0 else b[0] as nat + 256 * OfLe(b[1..])
  }

  lemma {:induction false} LeValue(n: nat, k: nat)
    requires n < Pow256(k)
    ensures OfLe(Le(n, k)) == n
  {
    if k > 0 {
      LeValue(n / 256, k - 1);
      assert Le(n, k)[1..] == Le(n / 256, k - 1);
    }
  }

  /** `push_bytes`: the length as a 64-bit integer, then the bytes. */
  function Field(b: Bytes): Bytes {
    Le(|b|, 8) + b
  }

  /** The length conversion in `push_bytes` succeeds. */
  predicate Fits64(n: nat) { n < Pow256(8) }

  lemma {:induction false} LeInjective(m: nat, n: nat, k: nat)
    requires m < Pow256(k) && n < Pow256(k) && Le(m, k) == Le(n, k)
    ensures m == n
  {
    if k > 0 {
      var a, b := Le(m, k), Le(n, k);
      assert a[0] == b[0] && a[1..] == Le(m / 256, k - 1) && b[1..] == Le(n / 256, k - 1);
      assert (m % 256) as byte == (n % 256) as byte;
      LeInjective(m / 256, n / 256, k - 1);
    }
  }

  lemma SplitEqual(a: Bytes, x: Bytes, b: Bytes, y: Bytes)
    requires a + x == b + y && |a| == |b|
    ensures a == b && x == y
  {
    assert a == (a + x)[..|a|] && b == (b + y)[..|b|];
    assert x == (a + x)[|a|..] && y == (b + y)[|b|..];
  }

  /** A field can be told from whatever follows it. */
  lemma FieldPrefixFree(a: Bytes, x: Bytes, b: Bytes, y: Bytes)
    requires Fits64(|a|) && Fits64(|b|) && Field(a) + x == Field(b) + y
    ensures a == b && x == y
  {
    hide Pow256, Le;
    assert Field(a) + x == Le(|a|, 8) + (a + x) && Field(b) + y == Le(|b|, 8) + (b + y);
    SplitEqual(Le(|a|, 8), a + x, Le(|b|, 8), b + y);
    LeInjective(|a|, |b|, 8);
    SplitEqual(a, x, b, y);
  }

  lemma {:induction false} NumberPrefixFree(m: nat, x: Bytes, n: nat, y: Bytes, k: nat)
    requires m < Pow256(k) && n < Pow256(k) && Le(m, k) + x == Le(n, k) + y
    ensures m == n && x == y
  {
    SplitEqual(Le(m, k), x, Le(n, k), y);
    LeInjective(m, n, k);
  }

  // ----- the whole key

  function EncodeProvider(p: Provider): Bytes {
    Field(Label(p)) + if p.AzureOpenAi? then Field(p.deployment) + Field(p.apiVersion) else []
  }

  function EncodeTemperature(t: Option<u32>): Bytes {
    match t
    case Some(bits) => Le(1, 4) + Le(bits, 4)
    case None => Le(0, 4)
  }

  function EncodeMessages(ms: seq<Message>): Bytes {
    if ms == [] then [] else Field(RoleName(ms[0].role)) + (Field(ms[0].content) + EncodeMessages(ms[1..]))
  }

  function EffectiveMaxTokens(c: Client, r: Request): u32 {
    if r.maxTokens.Some? then r.maxTokens.value else c.defaultMaxTokens
  }

  /** The bytes hashed by `build_cache_key`, in order. */
  function Encode(c: Client, r: Request): Bytes {
    Field(NAMESPACE) + (EncodeProvider(c.provider) + (Field(c.endpoint) + (Field(c.model) +
    (Le(EffectiveMaxTokens(c, r), 4) + (EncodeTemperature(r.temperature)
        + (Le(|r.messages|, 8) + EncodeMessages(r.messages)))))))
  }

  /** Every text and the message count fit in 64 bits, as the code insists. */
  ghost predicate Encodable(c: Client, r: Request) {
    && Fits64(|c.endpoint|) && Fits64(|c.model|) && Fits64(|r.messages|)
    && (c.provider.AzureOpenAi? ==> Fits64(|c.provider.deployment|) && Fits64(|c.provider.apiVersion|))
    && forall i :: 0 <= i < |r.messages| ==> Fits64(|r.messages[i].content|)
  }

  /** The requests agree on everything that identifies them. */
  ghost predicate SameIdentity(c: Client, r: Request, c': Client, r': Request) {
    && c.provider == c'.provider && c.endpoint == c'.endpoint && c.model == c'.model
    && (if r.maxTokens.Some? then r.maxTokens.value else c.defaultMaxTokens)
       == (if r'.maxTokens.Some? then r'.maxTokens.value else c'.defaultMaxTokens)
    && r.temperature == r'.temperature && r.messages == r'.messages
  }

  lemma LabelDistinguishes(p: Provider, q: Provider)
    requires Label(p) == Label(q)
    ensures p == q || (p.AzureOpenAi? && q.AzureOpenAi?)
  {
    LabelIsAscii(p);
    LabelIsAscii(q);
    hide LabelText, Ascii;
    AsciiInjective(LabelText(p), LabelText(q));
    LabelTextDistinguishes(p, q);
  }

  lemma LabelTextDistinguishes(p: Provider, q: Provider)
    requires LabelText(p) == LabelText(q)
    ensures p == q || (p.AzureOpenAi? && q.AzureOpenAi?)
  {
    assert |LabelText(p)| == |LabelText(q)| && LabelText(p)[0] == LabelText(q)[0] && LabelText(p)[1] == LabelText(q)[1];
  }

  lemma {:induction false} AsciiInjective(s: string, t: string)
    requires forall i :: 0 <= i < |s| ==> s[i] <= '\U{7F}'
    requires forall i :: 0 <= i < |t| ==> t[i] <= '\U{7F}'
    requires Ascii(s) == Ascii(t)
    ensures s == t
  {
    var a, b := Ascii(s), Ascii(t);
    forall i | 0 <= i < |s| ensures s[i] == t[i] { assert a[i] == b[i]; }
  }

  lemma RoleDistinguishes(r: Role, s: Role)
    requires RoleName(r) == RoleName(s)
    ensures r == s
  {
    assert RoleName(r)[0] == RoleName(s)[0];
  }

  lemma SmallFits(n: nat)
    requires n < 256
    ensures Fits64(n)
  {
    assert Pow256(8) == 256 * Pow256(7);
    hide Pow256;
  }

  lemma ProviderPrefixFree(p: Provider, x: Bytes, q: Provider, y: Bytes)
    requires p.AzureOpenAi? ==> Fits64(|p.deployment|) && Fits64(|p.apiVersion|)
    requires q.AzureOpenAi? ==> Fits64(|q.deployment|) && Fits64(|q.apiVersion|)
    requires EncodeProvider(p) + x == EncodeProvider(q) + y
    ensures p == q && x == y
  {
    hide Field, Fits64, Label;
    SmallFits(|Label(p)|);
    SmallFits(|Label(q)|);
    var px := if p.AzureOpenAi? then Field(p.deployment) + (Field(p.apiVersion) + x) else x;
    var qy := if q.AzureOpenAi? then Field(q.deployment) + (Field(q.apiVersion) + y) else y;
    ProviderAssoc(p, x);
    ProviderAssoc(q, y);
    FieldPrefixFree(Label(p), px, Label(q), qy);
    LabelDistinguishes(p, q);
    if p.AzureOpenAi? {
      FieldPrefixFree(p.deployment, Field(p.apiVersion) + x, q.deployment, Field(q.apiVersion) + y);
      FieldPrefixFree(p.apiVersion, x, q.apiVersion, y);
    }
  }

  lemma ProviderAssoc(p: Provider, x: Bytes)
    ensures EncodeProvider(p) + x
         == Field(Label(p)) + if p.AzureOpenAi? then Field(p.deployment) + (Field(p.apiVersion) + x) else x
  {
    hide Field, Label;
  }

  lemma TemperaturePrefixFree(s: Option<u32>, x: Bytes, t: Option<u32>, y: Bytes)
    requires EncodeTemperature(s) + x == EncodeTemperature(t) + y
    ensures s == t && x == y
  {
    U32Fits();
    hide Le, Pow256;
    var sx := if s.Some? then Le(s.value, 4) + x else x;
    var ty := if t.Some? then Le(t.value, 4) + y else y;
    assert EncodeTemperature(s) + x == Le(if s.Some? then 1 else 0, 4) + sx;
    assert EncodeTemperature(t) + y == Le(if t.Some? then 1 else 0, 4) + ty;
    NumberPrefixFree(if s.Some? then 1 else 0, sx, if t.Some? then 1 else 0, ty, 4);
    if s.Some? { NumberPrefixFree(s.value, x, t.value, y, 4); }
  }

  lemma U32Fits()
    ensures Pow256(4) == 0x1_0000_0000
  {
    assert Pow256(1) == 256 && Pow256(2) == 65536 && Pow256(3) == 16777216;
  }

  lemma {:induction false} MessagesInjective(ms: seq<Message>, ns: seq<Message>)
    requires |ms| == |ns| && EncodeMessages(ms) == EncodeMessages(ns)
    requires forall i :: 0 <= i < |ms| ==> Fits64(|ms[i].content|)
    requires forall i :: 0 <= i < |ns| ==> Fits64(|ns[i].content|)
    ensures ms == ns
  {
    if ms != [] {
      var m, n := ms[0], ns[0];
      hide Field, Fits64;
      RolesShort(m.role);
      RolesShort(n.role);
      FieldPrefixFree(RoleName(m.role), Field(m.content) + EncodeMessages(ms[1..]), RoleName(n.role),
          Field(n.content) + EncodeMessages(ns[1..]));
      RoleDistinguishes(m.role, n.role);
      hide RoleName;
      FieldPrefixFree(m.content, EncodeMessages(ms[1..]), n.content, EncodeMessages(ns[1..]));
      MessagesInjective(ms[1..], ns[1..]);
      assert ms == [m] + ms[1..] && ns == [n] + ns[1..];
    }
  }

  lemma RolesShort(r: Role)
    ensures Fits64(|RoleName(r)|)
  {
    assert |RoleName(r)| < 256;
    SmallFits(|RoleName(r)|);
  }

  /**
   Two requests feed the hasher the same bytes if and only if they agree on provider (with the Azure
   deployment and version), endpoint, model, effective token limit, temperature and all messages.
   */
  lemma EncodeInjective(c: Client, r: Request, c': Client, r': Request)
    requires Encodable(c, r) && Encodable(c', r')
    ensures Encode(c, r) == Encode(c', r') <==> SameIdentity(c, r, c', r')
  {
    if Encode(c, r) == Encode(c', r') {
      HeadInjective(c, r, c', r');
    }
  }

  function AfterModel(c: Client, r: Request): Bytes {
    Le(EffectiveMaxTokens(c, r), 4) + (EncodeTemperature(r.temperature)
        + (Le(|r.messages|, 8) + EncodeMessages(r.messages)))
  }

  lemma HeadInjective(c: Client, r: Request, c': Client, r': Request)
    requires Encodable(c, r) && Encodable(c', r') && Encode(c, r) == Encode(c', r')
    ensures SameIdentity(c, r, c', r')
  {
    hide Field, Fits64, EncodeProvider, EncodeTemperature, EncodeMessages, Le;
    var x, x' := AfterModel(c, r), AfterModel(c', r');
    SplitEqual(Field(NAMESPACE), EncodeProvider(c.provider) + (Field(c.endpoint) + (Field(c.model) + x)),
               Field(NAMESPACE), EncodeProvider(c'.provider) + (Field(c'.endpoint) + (Field(c'.model) + x')));
    ProviderPrefixFree(c.provider, Field(c.endpoint) + (Field(c.model) + x), c'.provider,
        Field(c'.endpoint) + (Field(c'.model) + x'));
    FieldPrefixFree(c.endpoint, Field(c.model) + x, c'.endpoint, Field(c'.model) + x');
    FieldPrefixFree(c.model, x, c'.model, x');
    TailInjective(c, r, c', r');
  }

  lemma TailInjective(c: Client, r: Request, c': Client, r': Request)
    requires Encodable(c, r) && Encodable(c', r') && AfterModel(c, r) == AfterModel(c', r')
    ensures EffectiveMaxTokens(c, r) == EffectiveMaxTokens(c', r')
    ensures r.temperature == r'.temperature && r.messages == r'.messages
  {
    U32Fits();
    hide EncodeTemperature, EncodeMessages, Le, Pow256;
    var y, y' := Le(|r.messages|, 8) + EncodeMessages(r.messages), Le(|r'.messages|, 8) + EncodeMessages(r'.messages);
    NumberPrefixFree(EffectiveMaxTokens(c, r), EncodeTemperature(r.temperature) + y,
                     EffectiveMaxTokens(c', r'), EncodeTemperature(r'.temperature) + y', 4);
    TemperaturePrefixFree(r.temperature, y, r'.temperature, y');
    NumberPrefixFree(|r.messages|, EncodeMessages(r.messages), |r'.messages|, EncodeMessages(r'.messages), 8);
    MessagesInjective(r.messages, r'.messages);
  }

  // ----- the builder

  class CacheKeyBuilder {
    /** Everything the hasher has been fed. */
    var fed: Bytes

    constructor (namespace: Bytes)
      requires Fits64(|namespace|)
      ensures fed == Field(namespace)
    {
      fed := [];
      new;
      PushBytes(namespace);
    }

    method PushBytes(value: Bytes)
      requires Fits64(|value|)
      modifies this
      ensures fed == old(fed) + Field(value)
      ensures exists length :: |length| == 8 && OfLe(length) == |value| && fed == old(fed) + (length + value)
    {
      LeValue(|value|, 8);
      hide Pow256, Le, OfLe;
      fed := fed + Le(|value|, 8);
      fed := fed + value;
      assert fed == old(fed) + (Le(|value|, 8) + value);
    }

    method PushU32(value: u32)
      modifies this
      ensures fed == old(fed) + Le(value, 4)
      ensures exists bytes :: |bytes| == 4 && OfLe(bytes) == value && fed == old(fed) + bytes
    {
      U32Fits();
      LeValue(value, 4);
      hide Pow256, Le, OfLe;
      fed := fed + Le(value, 4);
    }

    method PushU64(value: nat)
      requires Fits64(value)
      modifies this
      ensures fed == old(fed) + Le(value, 8)
      ensures exists bytes :: |bytes| == 8 && OfLe(bytes) == value && fed == old(fed) + bytes
    {
      LeValue(value, 8);
      hide Pow256, Le, OfLe;
      fed := fed + Le(value, 8);
    }
  }

  method PushProvider(builder: CacheKeyBuilder, p: Provider)
    requires p.AzureOpenAi? ==> Fits64(|p.deployment|) && Fits64(|p.apiVersion|)
    modifies builder
    ensures builder.fed == old(builder.fed) + EncodeProvider(p)
  {
    hide Field, Fits64, Label;
    SmallFits(|Label(p)|);
    builder.PushBytes(Label(p));
    if p.AzureOpenAi? {
      builder.PushBytes(p.deployment);
      builder.PushBytes(p.apiVersion);
    }
  }

  method PushTemperature(builder: CacheKeyBuilder, t: Option<u32>)
    modifies builder
    ensures builder.fed == old(builder.fed) + EncodeTemperature(t)
  {
    hide Le;
    match t
    case Some(bits) =>
      builder.PushU32(1);
      builder.PushU32(bits);
    case None =>
      builder.PushU32(0);
  }

  method PushMessages(builder: CacheKeyBuilder, ms: seq<Message>)
    requires forall i :: 0 <= i < |ms| ==> Fits64(|ms[i].content|)
    modifies builder
    ensures builder.fed == old(builder.fed) + EncodeMessages(ms)
  {
    hide Field, Fits64, RoleName;
    ghost var before := builder.fed;
    assert ms[0..] == ms;
    for i := 0 to |ms|
      invariant before + EncodeMessages(ms) == builder.fed + EncodeMessages(ms[i..])
    {
      var m := ms[i];
      RolesShort(m.role);
      assert ms[i..][0] == m && ms[i..][1..] == ms[i + 1..];
      ThreeParts(builder.fed, Field(RoleName(m.role)), Field(m.content), EncodeMessages(ms[i + 1..]));
      builder.PushBytes(RoleName(m.role));
      builder.PushBytes(m.content);
    }
  }

  lemma ThreeParts(a: Bytes, b: Bytes, c: Bytes, d: Bytes)
    ensures a + (b + (c + d)) == a + b + c + d
  {
  }

  lemma SevenParts(a: Bytes, b: Bytes, c: Bytes, d: Bytes, e: Bytes, f: Bytes, g: Bytes, h: Bytes)
    ensures a + b + c + d + e + f + g + h == a + (b + (c + (d + (e + (f + (g + h))))))
  {
    ThreeParts(e, f, g, h);
    ThreeParts(b, c, d, e + f + g + h);
    ThreeParts(a + b + c + d, e, f, g + h);
    ThreeParts(a, b, c, d);
    assert a + (b + (c + (d + (e + f + g + h)))) == a + (b + c + d + (e + f + g + h));
    assert a + (b + c + d + (e + f + g + h)) == a + b + c + d + (e + f + g + h);
    assert a + b + c + d + (e + f + g + h) == a + b + c + d + e + f + g + h;
  }

  /** `build_cache_key`, up to the hashing of what was fed. */
  method BuildCacheKey(c: Client, r: Request) returns (builder: CacheKeyBuilder)
    requires Encodable(c, r)
    ensures fresh(builder) && builder.fed == Encode(c, r)
  {
    SmallFits(|NAMESPACE|);
    hide Field, Le, Fits64, EncodeProvider, EncodeTemperature, EncodeMessages;
    builder := new CacheKeyBuilder(NAMESPACE);
    PushProvider(builder, c.provider);
    builder.PushBytes(c.endpoint);
    builder.PushBytes(c.model);
    builder.PushU32(EffectiveMaxTokens(c, r));
    PushTemperature(builder, r.temperature);
    builder.PushU64(|r.messages|);
    PushMessages(builder, r.messages);
    SevenParts(Field(NAMESPACE), EncodeProvider(c.provider), Field(c.endpoint), Field(c.model),
               Le(EffectiveMaxTokens(c, r), 4), EncodeTemperature(r.temperature), Le(|r.messages|, 8),
                   EncodeMessages(r.messages));
  }
}
