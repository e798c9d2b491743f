// The stored second-factor secret of src/auth_2fa.rs: masked, printed in base32, kept as an option.

module Secret {
  import opened Wrappers
  import opened MachineInts
  import opened ByteStrings
  import opened Base32
  import opened Config2Spec
  import opened Config2Code
  import Bits

  // The SHA-256 digest of the fixed key text.
  type Mask = k: seq<byte> | |k| == 32 witness seq(32, _ => 0)

  function XorEncrypt(data: seq<byte>, key: Mask): (r: seq<byte>)
    ensures |r| == |data|
  {
    seq(|data|, i requires 0 <= i < |data| => XorByte(data[i], key[i % 32]))
  }

  lemma XorEncryptTwice(data: seq<byte>, key: Mask)
    ensures XorEncrypt(XorEncrypt(data, key), key) == data
  {
    forall i | 0 <= i < |data| ensures XorEncrypt(XorEncrypt(data, key), key)[i] == data[i] {
      Bits.XorCancel(data[i], key[i % 32]);
    }
  }

  // A byte and its masked self differ by the key's byte; the key is used over and over.
  lemma MaskedBy(data: seq<byte>, key: Mask, i: nat)
    requires i < |data|
    ensures XorByte(XorEncrypt(data, key)[i], data[i]) == key[i % 32]
  {
    Bits.XorComm(data[i], key[i % 32]);
    Bits.XorCancel(key[i % 32], data[i]);
  }

  // The file holds this secret under "2fa".
  ghost predicate Keeps(w: World, content: string, key: Mask, secret: seq<byte>)
  {
    Encodes(XorEncrypt(secret, key), Get(Read(w, content), "2fa"))
  }

  // Whatever the file held, it keeps the secret afterwards, and nothing else in it changes; a file
  // that cannot be read is left alone.
  method SaveSecret(w: World, file: ConfigFile, key: Mask, secret: seq<byte>)
    requires Lawful(w)
    modifies file`content
    ensures file.readable ==> Keeps(w, file.content, key, secret)
    ensures file.readable ==>
              Read(w, file.content) == Set(Read(w, old(file.content)), "2fa", Get(Read(w, file.content), "2fa"))
    ensures !file.readable ==> file.content == old(file.content)
  {
    var encrypted := XorEncrypt(secret, key);
    var encoded := Encode(encrypted);
    ghost var before := file.content;
    StoreOption(w, file, "2fa", encoded);
    if file.readable { StoredKeeps(w, before, file.content, key, secret, encoded); }
  }

  method StoreOption(w: World, file: ConfigFile, name: string, value: string)
    requires Lawful(w)
    modifies file`content
    ensures file.content
         == if file.readable then Saved(w, Set(Read(w, old(file.content)), name, value)) else old(file.content)
  {
    var cfg2 := new Config2.Load(w, file);
    cfg2.SetOption(w, file, name, value);
    cfg2.Save(w, file);
  }

  lemma StoredKeeps(w: World, content: string, after: string, key: Mask, secret: seq<byte>, encoded: string)
    requires Lawful(w) && Encodes(XorEncrypt(secret, key), encoded)
    requires after == Saved(w, Set(Read(w, content), "2fa", encoded))
    ensures Keeps(w, after, key, secret) && Read(w, after) == Set(Read(w, content), "2fa", Get(Read(w, after), "2fa"))
  {
    FixedKeysPlain();
    SetSurvives(w, content, "2fa", encoded);
  }

  // A kept secret of a usable length is given back exactly; any other length is refused.
  method LoadSecret(w: World, upper: string -> string, file: ConfigFile, key: Mask, ghost secret: seq<byte>)
    returns (r: Option<seq<byte>>)
    requires Lawful(w) && KeepsCapitals(upper)
    ensures r.Some? ==> file.readable && 10 <= |r.value| <= 64
    ensures file.readable && Keeps(w, file.content, key, secret) ==>
              r == if 10 <= |secret| <= 64 then Some(secret) else None
  {
    var cfg2 := new Config2.Load(w, file);
    var encoded := cfg2.GetOption("2fa");
    if encoded == "" {
      if file.readable && Keeps(w, file.content, key, secret) { NothingKept(w, file.content, key, secret); }
      return None;
    }
    var encrypted := Decode(upper, encoded);
    if file.readable && Keeps(w, file.content, key, secret) {
      Base32RoundTrip(upper, XorEncrypt(secret, key), encoded, encrypted);
      XorEncryptTwice(secret, key);
    }
    if encrypted.None? { return None; }
    var plain := XorEncrypt(encrypted.value, key);
    if |plain| < 10 || |plain| > 64 { return None; }
    r := Some(plain);
  }

  lemma NothingKept(w: World, content: string, key: Mask, secret: seq<byte>)
    requires Keeps(w, content, key, secret) && Get(Read(w, content), "2fa") == ""
    ensures secret == []
  {
    var ds :| Regrouped(XorEncrypt(secret, key), ds) && TextOf(ds, "");
  }
}
