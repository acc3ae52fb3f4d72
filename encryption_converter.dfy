/**
 * The value converter that encrypts a property on its way to the database
 * and decrypts it on its way back (`EncryptionConverter<TModel, TProvider>`).
 * The cipher is an abstract provider: a pair of functions on optional byte
 * buffers that may fail.
 */
module EncryptionConverter {
  import opened Common
  import opened DataAnnotations
  import Base64Encoding
  import Utf8

  /** The CLR type of a property, or of one side of a converter. */
  datatype ClrType = StringType | ByteArrayType | OtherType(name: string)

  /** The two CLR types a converter converts between. */
  type SupportedType = t: ClrType | !t.OtherType? witness StringType

  /** A CLR value that crosses a converter: a string, a byte array, or null. */
  datatype Value = Null | Str(text: string) | Raw(bytes: Bytes)

  /** `v` is a value of CLR type `t`; null belongs to both types. */
  predicate HasType(v: Value, t: SupportedType) {
    match v
    case Null => true
    case Str(_) => t == StringType
    case Raw(_) => t == ByteArrayType
  }

  /** An `IEncryptionProvider`; `Err` carries the message of an exception the cipher throws. */
  datatype Provider = Provider(
    encrypt: Option<Bytes> -> Result<Option<Bytes>, string>,
    decrypt: Option<Bytes> -> Result<Option<Bytes>, string>)

  /** What a provider factory observes when it is called, such as the current request or scope. */
  type Ambient = nat

  /**
   * Where a converter gets its provider: one instance fixed at construction,
   * or a factory called once for every conversion, which may return null (`None`).
   */
  datatype ProviderSource = Eager(provider: Provider) | Deferred(factory: Ambient -> Option<Provider>)

  /** The exceptions a conversion lets through. */
  datatype ConversionError =
    | CipherError(message: string)  // thrown by the provider
    | MalformedBase64               // FormatException from Convert.FromBase64String
    | NullProvider                  // NullReferenceException on a null provider

  const Nul: char := '\0'

  /** The number of NUL characters at the start of `s`. */
  function LeadingNuls(s: string): (n: nat)
    ensures n <= |s|
    ensures forall k :: 0 <= k < n ==> s[k] == Nul
    ensures n < |s| ==> s[n] != Nul
    decreases |s|
  {
    if |s| > 0 && s[0] == Nul then 1 + LeadingNuls(s[1..]) else 0
  }

  /** The number of NUL characters at the end of `s`. */
  function TrailingNuls(s: string): (n: nat)
    ensures n <= |s|
    ensures forall k :: |s| - n <= k < |s| ==> s[k] == Nul
    ensures n < |s| ==> s[|s| - 1 - n] != Nul
    decreases |s|
  {
    if |s| > 0 && s[|s| - 1] == Nul then 1 + TrailingNuls(s[..|s| - 1]) else 0
  }

  /** `s` neither starts nor ends with a NUL character. */
  predicate Unpadded(s: string) {
    |s| == 0 || (s[0] != Nul && s[|s| - 1] != Nul)
  }

  /** `s[..i]` and `s[j..]` are all NUL characters. */
  predicate NulOutside(s: string, i: nat, j: nat)
    requires i <= j <= |s|
  {
    (forall k :: 0 <= k < i ==> s[k] == Nul) && (forall k :: j <= k < |s| ==> s[k] == Nul)
  }

  /** `r` is a slice of `s` outside of which `s` holds only NUL characters. */
  predicate TrimmedFrom(r: string, s: string) {
    exists i, j :: 0 <= i <= j <= |s| && r == s[i..j] && NulOutside(s, i, j)
  }

  /**
   * `String.Trim('\0')`: `s` without the NUL characters at either end; the
   * result is the slice of `s` that neither starts nor ends with NUL and
   * outside of which there is nothing but NUL.
   */
  function TrimNul(s: string): (r: string)
    ensures Unpadded(r) && TrimmedFrom(r, s)
  {
    var n := LeadingNuls(s);
    var t := s[n..];
    var m := TrailingNuls(t);
    var r := t[..|t| - m];
    assert r == s[n..|s| - m];
    assert forall k :: |s| - m <= k < |s| ==> s[k] == t[k - n];
    assert NulOutside(s, n, |s| - m);
    r
  }

  /** The plaintext bytes handed to the provider: null for a null or empty string. */
  function PlainBytes(v: Value): (r: Option<Bytes>)
    ensures r.None? <==> v == Null || v == Str("")
    ensures v.Raw? ==> r == Some(v.bytes)
    ensures v.Str? && v.text != "" ==> r == Some(Utf8.Encode(v.text))
    ensures v.Str? && r.Some? ==> Utf8.Decode(r.value) == v.text
  {
    match v
    case Null => None
    case Str(s) =>
      if s == "" then None
      else
        Utf8.RoundTrip(s);
        Some(Utf8.Encode(s))
    case Raw(b) => Some(b)
  }

  /** `input.ToString()` on a non-null value. */
  function TextOf(input: Value): (r: string)
    requires input != Null
    ensures input.Str? ==> r == input.text
    ensures input.Raw? ==> Base64Encoding.Decode(r).None?
  {
    match input
    case Str(s) => s
    case Raw(_) =>
      var name := "System.Byte[]";
      assert |name| % 4 == 1;
      name
  }

  /**
   * The first step of decryption: the encrypted bytes recovered from a stored
   * value, base64-decoded for `Default` and `Base64`, taken as they are for
   * `Binary` (a string there is not a `byte[]` and reads as null).
   */
  function StoredBytes(input: Value, format: StorageFormat): (r: Result<Option<Bytes>, ConversionError>)
    requires input != Null
    ensures r.Err? ==> r.error == MalformedBase64
    ensures format == Binary ==> r.Ok? && (r.value.Some? <==> input.Raw?) && (input.Raw? ==> r.value.value == input.bytes)
    ensures format != Binary ==> (r.Ok? <==> input.Str? && Base64Encoding.Decode(input.text).Some?)
    ensures format != Binary && r.Ok? ==> r.value == Base64Encoding.Decode(input.text)
  {
    if format == Binary then
      Ok(if input.Raw? then Some(input.bytes) else None)
    else
      match Base64Encoding.Decode(TextOf(input))
      case None => Err(MalformedBase64)
      case Some(b) => Ok(Some(b))
  }

  /**
   * The encryption direction for a provider that may be null: the plaintext
   * bytes go to the provider, a null ciphertext is stored as null, any other
   * is stored as base64 text (`Default`, `Base64`) or as the bytes themselves (`Binary`).
   */
  function Encrypt(v: Value, provider: Option<Provider>, format: StorageFormat): (r: Result<Value, ConversionError>)
    ensures provider.None? ==> r == Err(NullProvider)
    ensures provider.Some? ==>
      var out := provider.value.encrypt(PlainBytes(v));
      && (out.Err? ==> r == Err(CipherError(out.error)))
      && (out == Ok(None) ==> r == Ok(Null))
      && (out.Ok? && out.value.Some? ==>
            && r.Ok?
            && r.value == (if format == Binary then Raw(out.value.value) else Str(Base64Encoding.Encode(out.value.value)))
            && StoredBytes(r.value, format) == Ok(out.value))
  {
    match provider
    case None => Err(NullProvider)
    case Some(p) =>
      match p.encrypt(PlainBytes(v))
      case Err(m) => Err(CipherError(m))
      case Ok(None) => Ok(Null)
      case Ok(Some(c)) =>
        if format == Binary then Ok(Raw(c))
        else
          Base64Encoding.RoundTrip(c);
          Ok(Str(Base64Encoding.Encode(c)))
  }

  /** The factory overload of encryption: the factory is called once, then the provider it returns is used. */
  function EncryptDeferred(v: Value, factory: Ambient -> Option<Provider>, ambient: Ambient, format: StorageFormat)
    : (r: Result<Value, ConversionError>)
    ensures factory(ambient).None? ==> r == Err(NullProvider)
    ensures factory(ambient).Some? ==>
      var out := factory(ambient).value.encrypt(PlainBytes(v));
      && (r.Err? <==> out.Err?)
      && (out.Err? ==> r == Err(CipherError(out.error)))
      && (r == Ok(Null) <==> out == Ok(None))
      && (out.Ok? && out.value.Some? ==>
            r == Ok(if format == Binary then Raw(out.value.value) else Str(Base64Encoding.Encode(out.value.value))))
      && (r.Ok? && r.value != Null ==> StoredBytes(r.value, format) == Ok(out.value))
  {
    Encrypt(v, factory(ambient), format)
  }

  /**
   * The decryption direction towards a model of type `model`: the stored
   * bytes go to the provider; a null plaintext gives null; a string model
   * gets the UTF-8 text with NUL padding trimmed, a byte-array model the bytes.
   */
  function Decrypt(input: Value, model: SupportedType, provider: Option<Provider>, format: StorageFormat)
    : (r: Result<Value, ConversionError>)
    requires input != Null
    ensures StoredBytes(input, format).Err? ==> r == Err(MalformedBase64)
    ensures StoredBytes(input, format).Ok? && provider.None? ==> r == Err(NullProvider)
    ensures StoredBytes(input, format).Ok? && provider.Some? ==>
      var out := provider.value.decrypt(StoredBytes(input, format).value);
      && (out.Err? ==> r == Err(CipherError(out.error)))
      && (out == Ok(None) ==> r == Ok(Null))
      && (model == ByteArrayType && out.Ok? && out.value.Some? ==> r == Ok(Raw(out.value.value)))
      && (model == StringType && out.Ok? && out.value.Some? ==>
            && r.Ok? && r.value.Str?
            && TrimmedFrom(r.value.text, Utf8.Decode(out.value.value)))
    ensures r.Ok? ==> HasType(r.value, model)
    ensures r.Ok? && r.value.Str? ==> Unpadded(r.value.text)
  {
    match StoredBytes(input, format)
    case Err(e) => Err(e)
    case Ok(data) =>
      match provider
      case None => Err(NullProvider)
      case Some(p) =>
        match p.decrypt(data)
        case Err(m) => Err(CipherError(m))
        case Ok(None) => Ok(Null)
        case Ok(Some(d)) => Ok(if model == StringType then Str(TrimNul(Utf8.Decode(d))) else Raw(d))
  }

  /** The factory overload of decryption. */
  function DecryptDeferred(input: Value, model: SupportedType, factory: Ambient -> Option<Provider>, ambient: Ambient,
                           format: StorageFormat): (r: Result<Value, ConversionError>)
    requires input != Null
    ensures StoredBytes(input, format).Err? ==> r == Err(MalformedBase64)
    ensures StoredBytes(input, format).Ok? && factory(ambient).None? ==> r == Err(NullProvider)
    ensures StoredBytes(input, format).Ok? && factory(ambient).Some? ==>
      var out := factory(ambient).value.decrypt(StoredBytes(input, format).value);
      && (r.Err? <==> out.Err?)
      && (r == Ok(Null) <==> out == Ok(None))
    ensures r.Ok? ==> HasType(r.value, model)
  {
    Decrypt(input, model, factory(ambient), format)
  }

  /**
   * An `EncryptionConverter<TModel, TProvider>`: the model type, the storage
   * type, the storage format and the provider are all fixed at construction.
   */
  datatype Converter = Converter(model: SupportedType, store: SupportedType, format: StorageFormat, source: ProviderSource)

  /** The storage format is resolved and the storage type is the one it implies. */
  predicate Consistent(c: Converter) {
    c.format != Default && (c.store == StringType <==> c.format == Base64)
  }

  /** The provider one conversion uses. */
  function ProviderFor(source: ProviderSource, ambient: Ambient): Option<Provider> {
    match source
    case Eager(p) => Some(p)
    case Deferred(f) => f(ambient)
  }

  /** The converter's model-to-storage function. */
  function ConvertToProvider(c: Converter, v: Value, ambient: Ambient): (r: Result<Value, ConversionError>)
    ensures r == Encrypt(v, ProviderFor(c.source, ambient), c.format)
  {
    match c.source
    case Eager(p) => Encrypt(v, Some(p), c.format)
    case Deferred(f) => EncryptDeferred(v, f, ambient, c.format)
  }

  /** The converter's storage-to-model function; the host never hands it null. */
  function ConvertFromProvider(c: Converter, s: Value, ambient: Ambient): (r: Result<Value, ConversionError>)
    requires s != Null
    ensures r == Decrypt(s, c.model, ProviderFor(c.source, ambient), c.format)
    ensures r.Ok? ==> HasType(r.value, c.model)
  {
    match c.source
    case Eager(p) => Decrypt(s, c.model, Some(p), c.format)
    case Deferred(f) => DecryptDeferred(s, c.model, f, ambient, c.format)
  }

  /** The provider encrypts `b` to some ciphertext and decrypts that ciphertext back to `b`. */
  predicate RoundTrips(p: Provider, b: Bytes) {
    var out := p.encrypt(Some(b));
    out.Ok? && out.value.Some? && p.decrypt(out.value) == Ok(Some(b))
  }

  /** Trimming leaves a string without NUL at either end as it is. */
  lemma TrimNulKeepsUnpadded(s: string)
    requires Unpadded(s)
    ensures TrimNul(s) == s
  {
    assert LeadingNuls(s) == 0;
    assert TrailingNuls(s) == 0;
  }

  /**
   * `TrimNul` is the only trimming there is: any slice of `s` without NUL at
   * either end and with only NUL outside it is `TrimNul(s)`.
   */
  lemma TrimNulUnique(r: string, s: string)
    requires Unpadded(r) && TrimmedFrom(r, s)
    ensures r == TrimNul(s)
  {
    var t := TrimNul(s);
    var i, j :| 0 <= i <= j <= |s| && r == s[i..j] && NulOutside(s, i, j);
    var i', j' :| 0 <= i' <= j' <= |s| && t == s[i'..j'] && NulOutside(s, i', j');
    SliceBounds(s, i, j, i', j');
    SliceBounds(s, i', j', i, j);
    if i < j || i' < j' {
      assert i == i' && j == j';
    } else {
      assert |r| == 0 && |t| == 0;
    }
  }

  /**
   * A non-empty slice of `s` that neither starts nor ends with NUL lies
   * within the bounds of any slice outside of which `s` is all NUL.
   */
  lemma SliceBounds(s: string, i: nat, j: nat, i': nat, j': nat)
    requires i <= j <= |s| && Unpadded(s[i..j])
    requires i' <= j' <= |s| && NulOutside(s, i', j')
    ensures i < j ==> i' <= i && j <= j'
  {
    if i < j {
      assert s[i] == s[i..j][0] && s[j - 1] == s[i..j][j - i - 1];
    }
  }

  /** NUL padding appended to a string, such as cipher block padding, does not survive trimming. */
  lemma TrimNulRemovesPadding(s: string, n: nat)
    requires Unpadded(s)
    ensures TrimNul(s + seq(n, _ => Nul)) == s
  {
    var t := s + seq(n, _ => Nul);
    if |s| == 0 {
      assert LeadingNuls(t) == |t|;
    } else {
      assert LeadingNuls(t) == 0;
      TrailingPadding(s, n);
      assert t[..|t| - n] == s;
    }
  }

  lemma {:induction false} TrailingPadding(s: string, n: nat)
    requires |s| > 0 && s[|s| - 1] != Nul
    ensures TrailingNuls(s + seq(n, _ => Nul)) == n
    decreases n
  {
    var t := s + seq(n, _ => Nul);
    if n > 0 {
      assert t[..|t| - 1] == s + seq(n - 1, _ => Nul);
      TrailingPadding(s, n - 1);
    }
  }

  /** Null and the empty string hand the same (absent) plaintext to the provider, so they are stored alike. */
  lemma EmptyStringEncryptsAsNull(c: Converter, ambient: Ambient)
    ensures ConvertToProvider(c, Str(""), ambient) == ConvertToProvider(c, Null, ambient)
  {
  }

  /** A byte array survives encryption and decryption in either storage format. */
  lemma BytesRoundTrip(b: Bytes, p: Provider, format: StorageFormat)
    requires RoundTrips(p, b)
    ensures var s := Encrypt(Raw(b), Some(p), format);
            s.Ok? && s.value != Null && Decrypt(s.value, ByteArrayType, Some(p), format) == Ok(Raw(b))
  {
  }

  /** A non-empty string without NUL at either end survives encryption and decryption in either storage format. */
  lemma TextRoundTrip(t: string, p: Provider, format: StorageFormat)
    requires t != "" && Unpadded(t)
    requires RoundTrips(p, Utf8.Encode(t))
    ensures var s := Encrypt(Str(t), Some(p), format);
            s.Ok? && s.value != Null && Decrypt(s.value, StringType, Some(p), format) == Ok(Str(t))
  {
    var b := Utf8.Encode(t);
    assert PlainBytes(Str(t)) == Some(b);
    var c := p.encrypt(Some(b)).value;
    var s := Encrypt(Str(t), Some(p), format);
    assert s.Ok? && s.value != Null && StoredBytes(s.value, format) == Ok(c);
    Utf8.RoundTrip(t);
    TrimNulKeepsUnpadded(t);
    assert Decrypt(s.value, StringType, Some(p), format) == Ok(Str(TrimNul(Utf8.Decode(b))));
  }

  /**
   * Text that starts or ends with NUL does not survive: it comes back with
   * the NUL characters at its ends trimmed.
   */
  lemma NulEndedTextIsTrimmed(t: string, p: Provider, format: StorageFormat)
    requires !Unpadded(t)
    requires RoundTrips(p, Utf8.Encode(t))
    ensures var s := Encrypt(Str(t), Some(p), format);
            && s.Ok? && s.value != Null
            && Decrypt(s.value, StringType, Some(p), format) == Ok(Str(TrimNul(t)))
            && TrimNul(t) != t
  {
    Utf8.RoundTrip(t);
  }

  /** What a consistent converter stores is a value of its storage type, whatever the input. */
  lemma ConverterStorageShape(c: Converter, v: Value, ambient: Ambient)
    requires Consistent(c)
    ensures var r := ConvertToProvider(c, v, ambient);
            r.Ok? ==> HasType(r.value, c.store)
  {
  }

  /**
   * A converter gives back every non-null value of its model type (for a
   * string, non-empty and without NUL at either end), in both provider
   * modes, when the provider of that conversion round-trips its bytes.
   */
  lemma ConverterRoundTrip(c: Converter, v: Value, ambient: Ambient)
    requires Consistent(c) && HasType(v, c.model) && v != Null
    requires v.Str? ==> v.text != "" && Unpadded(v.text)
    requires ProviderFor(c.source, ambient).Some?
    requires RoundTrips(ProviderFor(c.source, ambient).value, PlainBytes(v).value)
    ensures var s := ConvertToProvider(c, v, ambient);
            s.Ok? && s.value != Null && HasType(s.value, c.store) && ConvertFromProvider(c, s.value, ambient) == Ok(v)
  {
    var p := ProviderFor(c.source, ambient).value;
    match v
    case Str(t) => TextRoundTrip(t, p, c.format);
    case Raw(b) => BytesRoundTrip(b, p, c.format);
  }

  /** A deferred converter behaves exactly as an eager one over the provider its factory returns for that call. */
  lemma DeferredActsAsEager(c: Converter, v: Value, s: Value, ambient: Ambient, other: Ambient)
    requires c.source.Deferred? && c.source.factory(ambient).Some? && s != Null
    ensures var e := c.(source := Eager(c.source.factory(ambient).value));
            && ConvertToProvider(c, v, ambient) == ConvertToProvider(e, v, other)
            && ConvertFromProvider(c, s, ambient) == ConvertFromProvider(e, s, other)
  {
  }

  /** A factory that returns null makes encryption fail, and decryption too once the stored bytes are read. */
  lemma NullFactoryResultFails(c: Converter, v: Value, s: Value, ambient: Ambient)
    requires c.source.Deferred? && c.source.factory(ambient).None? && s != Null
    ensures ConvertToProvider(c, v, ambient) == Err(NullProvider)
    ensures ConvertFromProvider(c, s, ambient) ==
      if StoredBytes(s, c.format).Err? then Err(MalformedBase64) else Err(NullProvider)
  {
  }

  /** `Default` reads and writes exactly as `Base64`. */
  lemma DefaultIsBase64(v: Value, s: Value, model: SupportedType, provider: Option<Provider>)
    requires s != Null
    ensures Encrypt(v, provider, Default) == Encrypt(v, provider, Base64)
    ensures Decrypt(s, model, provider, Default) == Decrypt(s, model, provider, Base64)
  {
  }
}
