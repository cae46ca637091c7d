/** Public keys as the device records carry them (`objects/device/deviceRecordShared.js`). */
module DeviceKeys {
  import opened Basics
  import Base64
  import Text

  const ED25519_SPKI_PREFIX: Bytes := [0x30, 0x2a, 0x30, 0x05, 0x06, 0x03, 0x2b, 0x65, 0x70, 0x03, 0x21, 0x00]
  const X25519_SPKI_PREFIX: Bytes := [0x30, 0x2a, 0x30, 0x05, 0x06, 0x03, 0x2b, 0x65, 0x6e, 0x03, 0x21, 0x00]

  /** Canonical base64 of 44 bytes with the given prefix. */
  predicate KeyOk(value: string, prefix: Bytes) {
    && Base64.RequireCanonicalB64(value, None).Ok?
    && var d := Base64.Decode(value);
       d.Ok? && |d.value| == 44 && prefix <= d.value
  }

  /** An Ed25519 public key in SPKI form. */
  predicate SpkiOk(value: string) {
    KeyOk(value, ED25519_SPKI_PREFIX)
  }

  /** An X25519 public key in SPKI form. */
  predicate X25519Ok(value: string) {
    KeyOk(value, X25519_SPKI_PREFIX)
  }

  lemma TrimKey(key: string)
    requires SpkiOk(key)
    ensures Text.Trim(key) == key && key != ""
  {
    hide Text.Trim, Base64.Decode, Base64.Encode;
    PatternHasNoSpace(key);
    Text.TrimPlain(key);
  }

  lemma PatternHasNoSpace(key: string)
    requires Base64.CanonicalPattern(key)
    ensures forall i :: 0 <= i < |key| ==> !Text.IsSpace(key[i]) && key[i] != '.'
  {
  }
}
