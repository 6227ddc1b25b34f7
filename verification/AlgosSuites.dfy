/** The cipher-suite registry of `algos`: stable identifiers and the sizes they fix. */
module AlgosSuites {
  import opened Bytes

  datatype Suite =
    | Aes128Gcm | Aes256Gcm | Aes128GcmSiv | Aes256GcmSiv | Aes128CmacSiv | Aes256CmacSiv
    | ChaCha20Poly1305 | XChaCha20Poly1305
    | Aes128CtrHmac | Aes192CtrHmac | Aes256CtrHmac
    | Camellia128CtrHmac | Camellia192CtrHmac | Camellia256CtrHmac
    | Aria128CtrHmac | Aria192CtrHmac | Aria256CtrHmac
    | Twofish128CtrHmac | Twofish192CtrHmac | Twofish256CtrHmac
    | Serpent128CtrHmac | Serpent192CtrHmac | Serpent256CtrHmac
    | Sm4CtrHmac | KuznyechikCtrHmac | Cast6CtrHmac | BeltCtrHmac
    | Salsa20Hmac | XSalsa20Hmac | Hc256Hmac

  /** The discriminant of the variant. */
  function Id(s: Suite): (id: nat)
    ensures 1 <= id <= 30
  {
    match s
    case Aes128Gcm => 1 case Aes256Gcm => 2 case Aes128GcmSiv => 3 case Aes256GcmSiv => 4
    case Aes128CmacSiv => 5 case Aes256CmacSiv => 6
    case ChaCha20Poly1305 => 7 case XChaCha20Poly1305 => 8
    case Aes128CtrHmac => 9 case Aes192CtrHmac => 10 case Aes256CtrHmac => 11
    case Camellia128CtrHmac => 12 case Camellia192CtrHmac => 13 case Camellia256CtrHmac => 14
    case Aria128CtrHmac => 15 case Aria192CtrHmac => 16 case Aria256CtrHmac => 17
    case Twofish128CtrHmac => 18 case Twofish192CtrHmac => 19 case Twofish256CtrHmac => 20
    case Serpent128CtrHmac => 21 case Serpent192CtrHmac => 22 case Serpent256CtrHmac => 23
    case Sm4CtrHmac => 24 case KuznyechikCtrHmac => 25 case Cast6CtrHmac => 26 case BeltCtrHmac => 27
    case Salsa20Hmac => 28 case XSalsa20Hmac => 29 case Hc256Hmac => 30
  }

  /** The registry table, looked up by identifier. */
  function FromId(id: nat): Option<Suite>
  {
    match id
    case 1 => Some(Aes128Gcm) case 2 => Some(Aes256Gcm) case 3 => Some(Aes128GcmSiv)
    case 4 => Some(Aes256GcmSiv) case 5 => Some(Aes128CmacSiv) case 6 => Some(Aes256CmacSiv)
    case 7 => Some(ChaCha20Poly1305) case 8 => Some(XChaCha20Poly1305) case 9 => Some(Aes128CtrHmac)
    case 10 => Some(Aes192CtrHmac) case 11 => Some(Aes256CtrHmac) case 12 => Some(Camellia128CtrHmac)
    case 13 => Some(Camellia192CtrHmac) case 14 => Some(Camellia256CtrHmac) case 15 => Some(Aria128CtrHmac)
    case 16 => Some(Aria192CtrHmac) case 17 => Some(Aria256CtrHmac) case 18 => Some(Twofish128CtrHmac)
    case 19 => Some(Twofish192CtrHmac) case 20 => Some(Twofish256CtrHmac) case 21 => Some(Serpent128CtrHmac)
    case 22 => Some(Serpent192CtrHmac) case 23 => Some(Serpent256CtrHmac) case 24 => Some(Sm4CtrHmac)
    case 25 => Some(KuznyechikCtrHmac) case 26 => Some(Cast6CtrHmac) case 27 => Some(BeltCtrHmac)
    case 28 => Some(Salsa20Hmac) case 29 => Some(XSalsa20Hmac) case 30 => Some(Hc256Hmac)
    case _ => None
  }

  predicate IsNativeAead(s: Suite) { Id(s) <= 8 }

  function KeyLen(s: Suite): (n: nat)
    ensures 16 <= n <= 64
  {
    match s
    case Aes128Gcm | Aes128GcmSiv | Aes128CtrHmac | Camellia128CtrHmac | Aria128CtrHmac
       | Twofish128CtrHmac | Serpent128CtrHmac | Sm4CtrHmac => 16
    case Aes192CtrHmac | Camellia192CtrHmac | Aria192CtrHmac | Twofish192CtrHmac | Serpent192CtrHmac => 24
    case Aes256CmacSiv => 64
    case _ => 32
  }

  function NonceLen(s: Suite): (n: nat)
    ensures 8 <= n <= 24 || n == 32
  {
    match s
    case Aes128Gcm | Aes256Gcm | Aes128GcmSiv | Aes256GcmSiv | ChaCha20Poly1305 => 12
    case XChaCha20Poly1305 | XSalsa20Hmac => 24
    case Salsa20Hmac => 8
    case Hc256Hmac => 32
    case _ => 16
  }

  function TagLen(s: Suite): (n: nat)
    ensures n == 16 || n == 32
  {
    if IsNativeAead(s) then 16 else 32
  }

  /** An identifier names a suite exactly when it is that suite's own identifier. */
  lemma IdentifierIsBijective(s: Suite, id: nat)
    ensures FromId(id) == Some(s) <==> id == Id(s)
  {
    if id == Id(s) {
      assert FromId(Id(s)) == Some(s);
    }
  }
}
