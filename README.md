# EntityFrameworkCore.DataEncryption, modelled in Dafny

This project models the core of an Entity Framework Core add-on that
encrypts chosen entity properties on their way to the database and decrypts
them on their way back. The add-on has three parts:

- **Marking.** A property is marked for encryption in one of two ways:
  - declaratively, with an `[Encrypted]` attribute that carries a `StorageFormat`;
  - fluently, with `PropertyBuilder.IsEncrypted(storageFormat)`, which writes two annotations.
- **Discovery and binding.** `ModelBuilder.UseEncryption` visits every property of every entity type:
  - it finds the marked ones (`EncryptedProperty.Create`: the annotation wins over the attribute);
  - it skips properties that already have a value converter;
  - it attaches an `EncryptionConverter` chosen by the property's CLR type and requested format (`GetValueConverter`).

  There are two overloads: one takes a provider instance, the other a provider factory.
- **Conversion.** `EncryptionConverter` turns a string or byte array into ciphertext through an `IEncryptionProvider`, stored either as base64 text or as raw bytes, and back.
  - An empty string is handed to the provider as null, exactly like null.
  - Decrypted text is UTF-8 with NUL characters trimmed from both ends.

The cipher is a parameter: a provider is a pair of functions on optional byte
buffers that may fail. UTF-8 (RFC 3629) and base64 (section 4 of RFC 4648)
are defined here as real functions, with their round trips proved. The
model's main properties are:

- **Converter round trip.** A consistent converter gives back every non-null value of its model type:
  - in both storage formats and in both provider modes;
  - for text, when the text is non-empty and has no NUL at either end;
  - whenever that conversion's provider round-trips its bytes.
- **Text with NUL at its ends.** Such text comes back trimmed.
- **Binding outcome.** After a successful `UseEncryption`:
  - every marked property of a supported type that had no converter carries the converter the selection table names;
  - every other property is unchanged.
- **Binding failure.** A failure comes from the first property, in visiting order, whose binding throws. What was visited before it is bound and the rest is untouched.

Modules, one per file:

- `Common`: bytes, `Option`, `Result`.
- `Base64Encoding` and `Utf8`: the encodings.
- `DataAnnotations`: `StorageFormat`.
- `EncryptionConverter`: the converter and its provider.
- `Metadata`: properties, annotations and entity types.
- `ModelBuilderExtensions`: discovery, converter selection and the `ModelBuilder` class with the binding loops.
- `PropertyBuilderExtensions`: the `PropertyBuilder` class and `IsEncrypted`.

The model builder and the property builder are classes whose methods update
their metadata in place. The binding loops are `while` loops proved against
the functions `BindProperties` and `BindEntities`, which describe the same
pass.

## Model

| member | source | states |
|---|---|---|
| Base64Encoding.Encode | src/EntityFrameworkCore.DataEncryption/Internal/EncryptionConverter.cs:62 | `Convert.ToBase64String` output is four characters for every started group of three bytes |
| Base64Encoding.IndexOf | src/EntityFrameworkCore.DataEncryption/Internal/EncryptionConverter.cs:79 | the index of a base64 digit is the inverse of the digit table |
| Base64Encoding.RoundTrip | src/EntityFrameworkCore.DataEncryption/Internal/EncryptionConverter.cs:79 | `FromBase64String(ToBase64String(b)) == b` for every byte array |
| Base64Encoding.Decode | src/EntityFrameworkCore.DataEncryption/Internal/EncryptionConverter.cs:79 | `Convert.FromBase64String` raises `FormatException` on text whose length is not a multiple of four or that holds a character outside the alphabet and `=`; what it accepts gives three bytes per four characters, less at most two for the padding |
| Base64Encoding.RejectsEarlyPad | src/EntityFrameworkCore.DataEncryption/Internal/EncryptionConverter.cs:79 | a pad symbol in any quadruple but the last raises `FormatException` |
| Utf8.Encode | src/EntityFrameworkCore.DataEncryption/Internal/EncryptionConverter.cs:48 | `Encoding.UTF8.GetBytes` yields one to four bytes per character, and none exactly for the empty string |
| Utf8.Decode | src/EntityFrameworkCore.DataEncryption/Internal/EncryptionConverter.cs:87 | `Encoding.UTF8.GetString` never fails and yields at most one character per byte |
| Utf8.RoundTrip | src/EntityFrameworkCore.DataEncryption/Internal/EncryptionConverter.cs:87 | decoding the UTF-8 encoding of any string gives the string back |
| Utf8.InvalidLeadsAreReplaced | src/EntityFrameworkCore.DataEncryption/Internal/EncryptionConverter.cs:87 | bytes none of which can start a sequence decode to one U+FFFD each |
| EncryptionConverter.TrimNul | src/EntityFrameworkCore.DataEncryption/Internal/EncryptionConverter.cs:87 | `Trim('\0')` returns a slice with no NUL at either end, and the input holds only NUL outside that slice |
| EncryptionConverter.TrimNulUnique | src/EntityFrameworkCore.DataEncryption/Internal/EncryptionConverter.cs:87 | any slice with those two properties is the trimmed string, so the contract above determines `Trim('\0')` |
| EncryptionConverter.TrimNulKeepsUnpadded | src/EntityFrameworkCore.DataEncryption/Internal/EncryptionConverter.cs:87 | trimming leaves a string without NUL at either end unchanged |
| EncryptionConverter.TrimNulRemovesPadding | src/EntityFrameworkCore.DataEncryption/Internal/EncryptionConverter.cs:87 | NUL padding appended to such a string is removed entirely |
| EncryptionConverter.PlainBytes | src/EntityFrameworkCore.DataEncryption/Internal/EncryptionConverter.cs:46-51 | the plaintext is absent exactly for null and the empty string; a byte array is passed as it is; a non-empty string is passed as its UTF-8 encoding, which decodes back to it |
| EncryptionConverter.TextOf | src/EntityFrameworkCore.DataEncryption/Internal/EncryptionConverter.cs:79 | `ToString()` of a string is the string itself; of a byte array it is the type name, which is never valid base64 |
| EncryptionConverter.StoredBytes | src/EntityFrameworkCore.DataEncryption/Internal/EncryptionConverter.cs:77-81 | the only failure is malformed base64; `Binary` always succeeds, yielding bytes exactly for a stored byte array (a string reads as null); `Default`/`Base64` succeed exactly on a string that base64-decodes, and yield its bytes |
| EncryptionConverter.Encrypt | src/EntityFrameworkCore.DataEncryption/Internal/EncryptionConverter.cs:44-67 | a null provider throws; a cipher exception propagates; a null ciphertext is stored as null; any other is stored as those bytes for `Binary` and as their `Convert.ToBase64String` text otherwise, and reading it back gives exactly that ciphertext |
| EncryptionConverter.Decrypt | src/EntityFrameworkCore.DataEncryption/Internal/EncryptionConverter.cs:74-95 | malformed base64 throws before the provider is touched; a null provider throws; a cipher exception propagates; a null plaintext gives null; a byte-array model gets the plaintext bytes; a string model gets the UTF-8 text trimmed of NUL at both ends; every result has the model type |
| EncryptionConverter.EncryptDeferred | src/EntityFrameworkCore.DataEncryption/Internal/EncryptionConverter.cs:69-72 | the factory is called for the conversion: a null provider throws `NullReferenceException`; otherwise the cipher's exception propagates, a null ciphertext is stored as null, and a ciphertext of the provider the factory returned is stored as exactly those bytes (`Binary`) or their base64 text, which reads back as that ciphertext |
| EncryptionConverter.DecryptDeferred | src/EntityFrameworkCore.DataEncryption/Internal/EncryptionConverter.cs:97-100 | malformed base64 throws first, then a null provider from the factory; otherwise the result fails or is null exactly when that provider's decryption does, and always has the model type |
| EncryptionConverter.ConvertToProvider | src/EntityFrameworkCore.DataEncryption/Internal/EncryptionConverter.cs:21-42 | both constructors' model-to-storage lambda encrypts with the provider of that conversion (the instance, or what the factory returns) and the converter's format |
| EncryptionConverter.ConvertFromProvider | src/EntityFrameworkCore.DataEncryption/Internal/EncryptionConverter.cs:21-42 | both constructors' storage-to-model lambda decrypts likewise, and its result has the model type |
| EncryptionConverter.EmptyStringEncryptsAsNull | src/EntityFrameworkCore.DataEncryption/Internal/EncryptionConverter.cs:48 | an empty string and null are stored identically by every converter |
| EncryptionConverter.BytesRoundTrip | src/EntityFrameworkCore.DataEncryption/Internal/EncryptionConverter.cs:44-95 | a byte array survives encryption and decryption in every storage format, given a provider that round-trips it |
| EncryptionConverter.TextRoundTrip | src/EntityFrameworkCore.DataEncryption/Internal/EncryptionConverter.cs:44-95 | a non-empty string without NUL at its ends survives encryption and decryption in every storage format |
| EncryptionConverter.NulEndedTextIsTrimmed | src/EntityFrameworkCore.DataEncryption/Internal/EncryptionConverter.cs:87 | a string with NUL at either end comes back trimmed and therefore different |
| EncryptionConverter.ConverterStorageShape | src/EntityFrameworkCore.DataEncryption/Internal/EncryptionConverter.cs:60-66 | a consistent converter only ever stores values of its storage type |
| EncryptionConverter.ConverterRoundTrip | src/EntityFrameworkCore.DataEncryption/Internal/EncryptionConverter.cs:21-42 | either converter construction gives back every non-null model value through its storage type, when that conversion's provider round-trips the bytes |
| EncryptionConverter.DeferredActsAsEager | src/EntityFrameworkCore.DataEncryption/Internal/EncryptionConverter.cs:69-100 | the factory overloads behave as the instance overloads over the provider the factory returns for that call |
| EncryptionConverter.NullFactoryResultFails | src/EntityFrameworkCore.DataEncryption/Internal/EncryptionConverter.cs:69-100 | a factory that returns null makes encryption throw; decryption then throws too, and a malformed stored value is reported first |
| EncryptionConverter.DefaultIsBase64 | src/EntityFrameworkCore.DataEncryption/Internal/EncryptionConverter.cs:60-81 | `Default` encrypts and decrypts exactly as `Base64` |
| ModelBuilderExtensions.UnsupportedMessageNamesType | src/EntityFrameworkCore.DataEncryption/ModelBuilderExtensions.cs:90 | the `NotImplementedException` message of `UnsupportedMessage` holds the type's name at a fixed place |
| ModelBuilderExtensions.UnsupportedMessagesDiffer | src/EntityFrameworkCore.DataEncryption/ModelBuilderExtensions.cs:90 | different type names give different messages |
| ModelBuilderExtensions.GetValueConverter | src/EntityFrameworkCore.DataEncryption/ModelBuilderExtensions.cs:69-91 | only string and byte-array properties get a converter, anything else throws `NotImplementedException` with the type's name; the converter keeps the property type and the provider, has a resolved format, and stores base64 text exactly for strings not asking for `Binary` and byte arrays asking for `Base64` |
| ModelBuilderExtensions.Create | src/EntityFrameworkCore.DataEncryption/ModelBuilderExtensions.cs:199-218 | without a true `IsEncrypted` annotation the attribute's format is used; with one, the `StorageFormat` annotation's format replaces it; a null `IsEncrypted` value, or a missing or null format under a true one, throws `NullReferenceException`; every other failure is `InvalidCastException` from an annotation value of the wrong type; only a marked property yields a format |
| ModelBuilderExtensions.BindProperty | src/EntityFrameworkCore.DataEncryption/ModelBuilderExtensions.cs:48-63 | one visit changes at most the converter; an unmarked property, or one with a converter, is left as it is; it throws exactly when discovery throws, with discovery's exception, or when the marked property has no converter of its own and an unsupported type, with `NotImplementedException` naming that type; otherwise it sets the selected converter |
| ModelBuilderExtensions.BindProperties | src/EntityFrameworkCore.DataEncryption/ModelBuilderExtensions.cs:48-63 | the inner loop keeps one property per position; what each one becomes is stated by `BindPropertiesSpec` |
| ModelBuilderExtensions.BindEntities | src/EntityFrameworkCore.DataEncryption/ModelBuilderExtensions.cs:44-64 | the outer loop keeps one entity type per position; what each one becomes is stated by `BindEntitiesSpec` |
| ModelBuilderExtensions.BindPropertiesSpec | src/EntityFrameworkCore.DataEncryption/ModelBuilderExtensions.cs:48-63 | the inner loop binds every property, or stops at the first failing one with those before it bound and those after it untouched |
| ModelBuilderExtensions.BindEntitiesSpec | src/EntityFrameworkCore.DataEncryption/ModelBuilderExtensions.cs:44-64 | the outer loop binds every property of every entity type, or stops at the first failing property in visiting order with everything before it bound and everything after it untouched |
| ModelBuilderExtensions.BindEntitiesSucceeds | src/EntityFrameworkCore.DataEncryption/ModelBuilderExtensions.cs:44-66 | the build succeeds if and only if every property binds without an exception |
| ModelBuilderExtensions.BoundPropertyOutcome | src/EntityFrameworkCore.DataEncryption/ModelBuilderExtensions.cs:44-64 | after a successful build a marked, supported property without a converter carries the table's converter, and every other property is unchanged |
| ModelBuilderExtensions.UnsupportedTypeFails | test/EntityFrameworkCore.DataEncryption.Test/ModelBuilderExtensionsTest.cs:30-50 | a property marked by the `[Encrypted]` attribute, the annotations or both, of an unsupported type that has no converter of its own, with every property visited before it binding, makes the build throw `NotImplementedException` naming that type |
| ModelBuilderExtensions.ModelBuilder.BindAll | src/EntityFrameworkCore.DataEncryption/ModelBuilderExtensions.cs:44-64 | the outer loop leaves the entity types and reports the exception exactly as `BindEntities` describes |
| ModelBuilderExtensions.ModelBuilder.BindEntity | src/EntityFrameworkCore.DataEncryption/ModelBuilderExtensions.cs:46-63 | the inner loop over one entity type changes only that entity type, exactly as `BindProperties` describes |
| ModelBuilderExtensions.ModelBuilder.BindOne | src/EntityFrameworkCore.DataEncryption/ModelBuilderExtensions.cs:51-62 | one visit updates only that property, as `BindProperty` says, and otherwise reports the exception and changes nothing |
| ModelBuilderExtensions.UseEncryption | src/EntityFrameworkCore.DataEncryption/ModelBuilderExtensions.cs:32-67 | a null model builder throws first, then a null provider with the model unchanged; otherwise the model is bound as `BindEntities` says and the same builder is returned, or the first exception propagates |
| ModelBuilderExtensions.UseEncryptionDeferred | src/EntityFrameworkCore.DataEncryption/ModelBuilderExtensions.cs:110-153 | the same for the factory overload, with `encryptionProviderFunc` as the null argument's name |
| PropertyBuilderExtensions.MarkEncrypted | src/EntityFrameworkCore.DataEncryption/PropertyBuilderExtensions.cs:30-31 | marking sets `IsEncrypted` to true and `StorageFormat` to the format, adds no other key and changes no other annotation or field |
| PropertyBuilderExtensions.PropertyBuilder.HasAnnotation | src/EntityFrameworkCore.DataEncryption/PropertyBuilderExtensions.cs:30-31 | setting an annotation replaces that key's value and changes nothing else |
| PropertyBuilderExtensions.IsEncrypted | src/EntityFrameworkCore.DataEncryption/PropertyBuilderExtensions.cs:22-34 | a null builder throws `ArgumentNullException("builder")`; otherwise the property is marked with the given format (`Default` when none is given) and the same builder is returned |
| PropertyBuilderExtensions.MarkedIsDiscovered | src/EntityFrameworkCore.DataEncryption/ModelBuilderExtensions.cs:210-217 | discovery reads back exactly the format `IsEncrypted` wrote, whatever the attribute says |
| PropertyBuilderExtensions.MarkedIsBound | src/EntityFrameworkCore.DataEncryption/ModelBuilderExtensions.cs:48-62 | a property of a supported type marked fluently and without a converter is bound to the table's converter for that format |
| PropertyBuilderExtensions.MarkedUnsupportedFails | src/EntityFrameworkCore.DataEncryption/ModelBuilderExtensions.cs:90 | marking a property of an unsupported type that has no converter of its own makes binding throw `NotImplementedException` naming the type |
| PropertyBuilderExtensions.LastMarkWins | src/EntityFrameworkCore.DataEncryption/PropertyBuilderExtensions.cs:30-31 | marking twice is the same as marking once with the second format |

## Left out

- **Partial binding.** A failed build leaves the properties visited before the failure bound, because each converter is set as soon as it is selected (`BindEntitiesSpec`, `ModelBuilder.BindAll`).
- **Text round trip.** Decrypted text is trimmed of NUL at both ends, so text with NUL at either end does not round-trip (`NulEndedTextIsTrimmed`).
- **The cipher itself.** The concrete providers (AES), keys and IVs are out of scope: a provider is an arbitrary pair of functions. An exception a provider throws is modelled as an error value carrying its message.
- **The provider factory.** Calling the factory is modelled as a function of an `Ambient` value, which stands for the request or scope state the factory sees at that call. A factory that throws is not modelled.
- **EF Core metadata.** This is replaced by plain records: entity types hold sequences of properties, and annotations are maps from typed keys to typed values, `null` among them. The value converter is an annotation, as `FindAnnotation(CoreAnnotationNames.ValueConverter)` treats it.
- **Shared properties.** Aliasing is not modelled: a property that EF Core shares between a base and a derived entity type is two separate records here. The same holds between the metadata a `PropertyBuilder` holds and the properties a `ModelBuilder` holds.
- **Storage types and `Convert.ChangeType`.** The CLR types of stored values are modelled only for `string` and `byte[]`. `Convert.ChangeType` is the identity, which holds for the four converter instantiations `GetValueConverter` can build (`Consistent`).
- **Null storage values.** Decryption of a null storage value is excluded by a precondition (`Decrypt`, `ConvertFromProvider`), because the host never passes null to a converter.
- **Null discovered properties.** The guard `encryptedProperty.Property == null` in the factory overload is not modelled: discovery only yields properties it was given.
- **Out-of-range `StorageFormat` values.** `StorageFormat` is modelled as its three named members. A C# enum also holds other values, such as `(StorageFormat)3`. Such a value would reach the `_ => throw new NotImplementedException()` arms of `GetValueConverter`'s format switches (`ModelBuilderExtensions.cs` lines 77, 86, 163 and 173), and `Encrypt`/`Decrypt` would treat it as `Binary`. The model does not capture either behaviour.
- **`ModelBuilderExtensions.Create`:** an `int` boxed under the `StorageFormat` annotation is reported as `InvalidCastException`, although .NET unboxes an enum from its underlying integer type; the numeric values of `StorageFormat` are not part of this model, so which integer stands for which format cannot be stated.
- **`ConverterMappingHints`.** This constructor parameter is not modelled: it is passed through to the base class and does not affect conversion.
- **`Base64Encoding.Decode`:** does not model the whitespace that `Convert.FromBase64String` skips.
- **`Base64Encoding.Decode`:** ignores the unused low bits of the last digit before the padding, so it also accepts non-canonical text such as `AB==`. This is why `Encrypt` states the stored text as `Encode` of the ciphertext, not merely as text that decodes to it.
- **`BindProperties`, `BindEntities`:** their own contracts state only that the number of entries is kept. What the loops do is stated by `BindPropertiesSpec` and `BindEntitiesSpec`, because a quantified contract on the functions themselves makes the loop proofs in `ModelBuilder` too costly.
- **Lone UTF-16 surrogates.** Strings holding them cannot be represented: a Dafny `char` is a Unicode scalar value, so `Utf8.Encode` covers valid text only.
- **Other parts of the repository.** The samples, the test contexts, the AES provider and key generation, and the concurrency of the host are not part of this model.
