/**
 * The storage-format policy that both the `[Encrypted]` attribute and the
 * fluent `IsEncrypted` call carry.
 */
module DataAnnotations {

  /**
   * How encrypted bytes are stored: `Base64` as text, `Binary` as raw bytes,
   * and `Default` resolved by the property's CLR type when a converter is chosen.
   */
  datatype StorageFormat = Default | Base64 | Binary
}
