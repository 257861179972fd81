/** The RSCHKEY v1 frame: a room key bound to one identity, one hub and one room. */
module SealedKey {
  import opened Bytes
  import opened Normalize
  import Casing
  import Utf8

  // "RSCHKEY", a zero octet and the version.
  const MAGIC: Bytes := [0x52, 0x53, 0x43, 0x48, 0x4B, 0x45, 0x59, 0x00, 0x01]
  const HEADER: nat := 45
  const MAX_KEY: nat := 160
  const MAX_FRAME: nat := HEADER + ROOM_BUFFER + MAX_KEY
  const MAX_SEALED: nat := 431

  /** The loaded identity: its hash, and two keys whose first halves encrypt and whose second halves sign. */
  datatype Identity = Identity(hash: Bytes, publicKey: Bytes, privateKey: Bytes)

  predicate Shaped(id: Identity) {
    |id.hash| == 16 && |id.publicKey| == |id.privateKey| == 64
  }

  datatype Loaded = NoIdentity | Loaded(identity: Identity)

  datatype Sealing = Sealed(text: Bytes) | OutputTooSmall | SealFailed

  datatype Opening = Opened(plain: Bytes) | NotOpened

  /** The ECIES of the crypto crate. A sealed text fits the buffer it was given; an opened one fits the frame buffer. */
  datatype Ecies = Ecies(
    seal: (Bytes, Bytes, Bytes, Bytes, Bytes, nat) -> Sealing,   // plain, public half, hash, ephemeral key, vector, capacity
    open: (Bytes, Bytes, Bytes) -> Opening)                      // sealed, private half, hash

  ghost predicate EciesFits(e: Ecies) {
    && (forall p, k, h, n, v, c :: e.seal(p, k, h, n, v, c).Sealed? ==> |e.seal(p, k, h, n, v, c).text| <= c)
    && (forall s, k, h :: e.open(s, k, h).Opened? ==> |e.open(s, k, h).plain| <= MAX_FRAME)
  }

  /** Opening with a private half undoes sealing with its public half. */
  ghost predicate EciesOpens(e: Ecies, id: Identity)
    requires Shaped(id)
  {
    forall p, n, v, c :: e.seal(p, id.publicKey[..32], id.hash, n, v, c).Sealed? ==>
      e.open(e.seal(p, id.publicKey[..32], id.hash, n, v, c).text, id.privateKey[..32], id.hash) == Opened(p)
  }

  /** The plaintext that is sealed. */
  function Frame(identity: Bytes, hub: Bytes, room: Bytes, key: Bytes): (f: Bytes)
    requires |room| < 0x1_0000 && |key| < 0x1_0000
  {
    Head(identity, hub, |room|, |key|) + room + key
  }

  predicate KeyForm(key: Bytes) {
    1 <= |key| <= MAX_KEY && Utf8.Valid(key)
  }

  function SealSpec(u: Casing.Unicode, e: Ecies, loaded: Loaded, hub: Bytes, room: Bytes, key: Bytes, entropy: Bytes, capacity: nat)
    : (r: (Status, Bytes))
    requires |entropy| == 48 && (loaded.Loaded? ==> Shaped(loaded.identity))
  {
    if !(1 <= |room| <= ROOM_BUFFER) || !(1 <= |key| <= MAX_KEY) || capacity > MAX_SEALED then (ErrInvalidArg, [])
    else if loaded.NoIdentity? then (ErrNotReady, [])
    else if !Canonical(u, room) || !Utf8.Valid(key) then (ErrInvalidArg, [])
    else
      var id := loaded.identity;
      match e.seal(Frame(id.hash, hub, room, key), id.publicKey[..32], id.hash, entropy[..32], entropy[32..], capacity)
      case Sealed(text) => (StatusOk, text)
      case OutputTooSmall => (ErrCapacity, [])
      case SealFailed => (ErrCrypto, [])
  }

  /** `plain` is the frame of this identity, hub and room around `key`, and `key` is a key. */
  ghost predicate Opens(plain: Bytes, identity: Bytes, hub: Bytes, room: Bytes, key: Bytes)
    requires |room| <= ROOM_BUFFER
  {
    KeyForm(key) && plain == Frame(identity, hub, room, key)
  }

  // ---- Sealing -------------------------------------------------------------------------------

  /** What stands in front of the room. */
  function Head(identity: Bytes, hub: Bytes, roomLength: nat, keyLength: nat): Bytes {
    MAGIC + identity + hub + ToBigEndian(roomLength, 2) + ToBigEndian(keyLength, 2)
  }

  method FillHead(plain: array<byte>, identity: Bytes, hub: Bytes, roomLength: nat, keyLength: nat)
    requires plain.Length == MAX_FRAME && |identity| == |hub| == 16
    modifies plain
    ensures plain[..HEADER] == Head(identity, hub, roomLength, keyLength)
  {
    hide ToBigEndian;
    CopyInto(plain, 0, MAGIC);
    CopyInto(plain, 9, identity);
    CopyInto(plain, 25, hub);
    CopyInto(plain, 41, ToBigEndian(roomLength, 2));
    CopyInto(plain, 43, ToBigEndian(keyLength, 2));
  }

  /** Fills the fixed plaintext buffer slice by slice. */
  method FillFrame(plain: array<byte>, identity: Bytes, hub: Bytes, room: Bytes, key: Bytes) returns (length: nat)
    requires plain.Length == MAX_FRAME && |identity| == |hub| == 16
    requires |room| <= ROOM_BUFFER && |key| <= MAX_KEY
    modifies plain
    ensures length == HEADER + |room| + |key| && plain[..length] == Frame(identity, hub, room, key)
  {
    hide Head;
    FillHead(plain, identity, hub, |room|, |key|);
    ghost var head := plain[..HEADER];
    CopyInto(plain, HEADER, room);
    length := HEADER + |room| + |key|;
    CopyInto(plain, HEADER + |room|, key);
    assert plain[..HEADER] == head;
    assert plain[HEADER..HEADER + |room|] == room;
    assert plain[..length] == plain[..HEADER] + plain[HEADER..HEADER + |room|] + plain[HEADER + |room|..length];
  }

  method SealKey(u: Casing.Unicode, e: Ecies, loaded: Loaded, hub: Bytes, room: Bytes, key: Bytes, entropy: Bytes, out: array<byte>)
    returns (status: Status, outLength: nat)
    requires EciesFits(e) && |hub| == 16 && |entropy| == 48 && (loaded.Loaded? ==> Shaped(loaded.identity))
    modifies out
    ensures status == SealSpec(u, e, loaded, hub, room, key, entropy, out.Length).0
    ensures var text := SealSpec(u, e, loaded, hub, room, key, entropy, out.Length).1;
            outLength == |text| <= out.Length && out[..] == text + old(out[..])[|text|..]
  {
    hide Canonical, Frame, Utf8.Valid;
    outLength := 0;
    if |room| == 0 || |room| > ROOM_BUFFER || |key| == 0 || |key| > MAX_KEY || out.Length > MAX_SEALED {
      return ErrInvalidArg, 0;
    }
    if loaded.NoIdentity? {
      return ErrNotReady, 0;
    }
    var id := loaded.identity;
    var canonical := IsCanonical(u, room);
    if !canonical || !Utf8.Valid(key) {
      return ErrInvalidArg, 0;
    }
    var plain := new byte[MAX_FRAME];
    var length := FillFrame(plain, id.hash, hub, room, key);
    match e.seal(plain[..length], id.publicKey[..32], id.hash, entropy[..32], entropy[32..], out.Length)
    case Sealed(text) =>
      CopyInto(out, 0, text);
      return StatusOk, |text|;
    case OutputTooSmall =>
      return ErrCapacity, 0;
    case SealFailed =>
      return ErrCrypto, 0;
  }

  // ---- Unsealing -----------------------------------------------------------------------------

  /** The checks on a decrypted plaintext: where its key starts and ends, if it is accepted. */
  function KeyIn(plain: Bytes, identity: Bytes, hub: Bytes, room: Bytes): (r: Result<Bytes>)
  {
    if |plain| < HEADER || plain[..9] != MAGIC || plain[9..25] != identity || plain[25..41] != hub then Err(Invalid)
    else
      var roomLength := BigEndian(plain[41..43]);
      var keyLength := BigEndian(plain[43..45]);
      if roomLength != |room| || keyLength == 0 || keyLength > MAX_KEY || HEADER + roomLength + keyLength != |plain|
         || plain[HEADER..HEADER + roomLength] != room
         || !Utf8.Valid(plain[HEADER + roomLength..])
      then Err(Invalid)
      else Ok(plain[HEADER + roomLength..])
  }

  function UnsealSpec(u: Casing.Unicode, e: Ecies, loaded: Loaded, hub: Bytes, room: Bytes, sealed: Bytes, capacity: nat)
    : (r: (Status, Bytes))
    requires loaded.Loaded? ==> Shaped(loaded.identity)
  {
    if !(1 <= |room| <= ROOM_BUFFER) || |sealed| > MAX_SEALED || capacity > MAX_SEALED then (ErrInvalidArg, [])
    else if loaded.NoIdentity? then (ErrNotReady, [])
    else if !Canonical(u, room) then (ErrInvalidArg, [])
    else
      var id := loaded.identity;
      match e.open(sealed, id.privateKey[..32], id.hash)
      case NotOpened => (ErrCrypto, [])
      case Opened(plain) =>
        match KeyIn(plain, id.hash, hub, room)
        case Err(_) => (ErrCrypto, [])
        case Ok(key) => if capacity < |key| then (ErrCapacity, []) else (StatusOk, key)
  }

  /** The checks as they run over the fixed buffer, whose tail past `length` is left over. */
  method CheckFrame(plain: array<byte>, length: nat, identity: Bytes, hub: Bytes, room: Bytes) returns (r: Result<Bytes>)
    requires plain.Length == MAX_FRAME && length <= MAX_FRAME
    ensures r == KeyIn(plain[..length], identity, hub, room)
  {
    hide BigEndian, Utf8.Valid;
    if length < HEADER || plain[..9] != MAGIC || plain[9..25] != identity || plain[25..41] != hub {
      if length >= HEADER {
        Prefix(plain[..], length);
      }
      return Err(Invalid);
    }
    Prefix(plain[..], length);
    var roomLength := BigEndian(plain[41..43]);
    var keyLength := BigEndian(plain[43..45]);
    if roomLength != |room| || keyLength == 0 || keyLength > MAX_KEY || HEADER + roomLength + keyLength != length {
      return Err(Invalid);
    }
    Inner(plain[..], length, HEADER, HEADER + roomLength);
    Inner(plain[..], length, HEADER + roomLength, length);
    if plain[HEADER..HEADER + roomLength] != room {
      return Err(Invalid);
    }
    var key := plain[HEADER + roomLength..length];
    if !Utf8.Valid(key) {
      return Err(Invalid);
    }
    return Ok(key);
  }

  lemma Prefix(plain: Bytes, length: nat)
    requires HEADER <= length <= |plain|
    ensures plain[..length][..9] == plain[..9] && plain[..length][9..25] == plain[9..25]
    ensures plain[..length][25..41] == plain[25..41] && plain[..length][41..43] == plain[41..43]
    ensures plain[..length][43..45] == plain[43..45]
  {
  }

  lemma Inner(plain: Bytes, length: nat, from: nat, to: nat)
    requires from <= to <= length <= |plain|
    ensures plain[..length][from..to] == plain[from..to]
  {
  }

  method UnsealKey(u: Casing.Unicode, e: Ecies, loaded: Loaded, hub: Bytes, room: Bytes, sealed: Bytes, out: array<byte>)
    returns (status: Status, outLength: nat)
    requires EciesFits(e) && |hub| == 16 && (loaded.Loaded? ==> Shaped(loaded.identity))
    modifies out
    ensures status == UnsealSpec(u, e, loaded, hub, room, sealed, out.Length).0
    ensures var key := UnsealSpec(u, e, loaded, hub, room, sealed, out.Length).1;
            outLength == |key| <= out.Length && out[..] == key + old(out[..])[|key|..]
  {
    hide Canonical, KeyIn;
    outLength := 0;
    if |room| == 0 || |room| > ROOM_BUFFER || |sealed| > MAX_SEALED || out.Length > MAX_SEALED {
      return ErrInvalidArg, 0;
    }
    if loaded.NoIdentity? {
      return ErrNotReady, 0;
    }
    var id := loaded.identity;
    var canonical := IsCanonical(u, room);
    if !canonical {
      return ErrInvalidArg, 0;
    }
    var decrypted := e.open(sealed, id.privateKey[..32], id.hash);
    if decrypted.NotOpened? {
      return ErrCrypto, 0;
    }
    var plain := new byte[MAX_FRAME](_ => 0);
    CopyInto(plain, 0, decrypted.plain);
    assert plain[..|decrypted.plain|] == decrypted.plain;
    var checked := CheckFrame(plain, |decrypted.plain|, id.hash, hub, room);
    if checked.Err? {
      return ErrCrypto, 0;
    }
    var key := checked.value;
    if out.Length < |key| {
      return ErrCapacity, 0;
    }
    CopyInto(out, 0, key);
    return StatusOk, |key|;
  }

  // ---- What unsealing accepts ----------------------------------------------------------------

  lemma FrameLayout(identity: Bytes, hub: Bytes, room: Bytes, key: Bytes)
    requires |identity| == |hub| == 16 && |room| < 0x1_0000 && |key| < 0x1_0000
    ensures var f := Frame(identity, hub, room, key);
            && |f| == HEADER + |room| + |key|
            && f[..9] == MAGIC && f[9..25] == identity && f[25..41] == hub
            && f[41..43] == ToBigEndian(|room|, 2) && f[43..45] == ToBigEndian(|key|, 2)
            && f[HEADER..HEADER + |room|] == room && f[HEADER + |room|..] == key
  {
    hide ToBigEndian;
  }

  lemma {:induction false} BigEndianOf(s: Bytes)
    ensures ToBigEndian(BigEndian(s), |s|) == s
  {
    if s != [] {
      BigEndianOf(s[..|s| - 1]);
      assert s == s[..|s| - 1] + [s[|s| - 1]];
    }
  }

  /** Cutting a plaintext where the checks look at it. */
  lemma Cut(plain: Bytes, n: nat)
    requires HEADER + n <= |plain|
    ensures plain == plain[..9] + plain[9..25] + plain[25..41] + plain[41..43] + plain[43..45]
                     + plain[HEADER..HEADER + n] + plain[HEADER + n..]
  {
  }

  /** A plaintext is accepted with a key exactly when it is the frame around that key. */
  lemma AcceptsExactlyTheFrame(plain: Bytes, identity: Bytes, hub: Bytes, room: Bytes, key: Bytes)
    requires |identity| == |hub| == 16 && |room| <= ROOM_BUFFER
    ensures KeyIn(plain, identity, hub, room) == Ok(key) <==> Opens(plain, identity, hub, room, key)
  {
    hide BigEndian, ToBigEndian, Utf8.Valid;
    WidthValues();
    if Opens(plain, identity, hub, room, key) {
      FrameLayout(identity, hub, room, key);
      BigEndianInverse(|room|, 2);
      BigEndianInverse(|key|, 2);
    }
    if KeyIn(plain, identity, hub, room) == Ok(key) {
      BigEndianOf(plain[41..43]);
      BigEndianOf(plain[43..45]);
      Cut(plain, |room|);
    }
  }

  /** Unsealing succeeds exactly on the frame of this very context around a key the buffer holds. */
  lemma UnsealAccepts(u: Casing.Unicode, e: Ecies, id: Identity, hub: Bytes, room: Bytes, sealed: Bytes, capacity: nat, key: Bytes)
    requires Shaped(id) && |hub| == 16
    ensures UnsealSpec(u, e, Loaded(id), hub, room, sealed, capacity) == (StatusOk, key) <==>
            && 1 <= |room| <= ROOM_BUFFER && Canonical(u, room)
            && |sealed| <= MAX_SEALED && |key| <= capacity <= MAX_SEALED
            && e.open(sealed, id.privateKey[..32], id.hash).Opened?
            && Opens(e.open(sealed, id.privateKey[..32], id.hash).plain, id.hash, hub, room, key)
  {
    hide Canonical, KeyIn, Opens;
    if |room| <= ROOM_BUFFER && e.open(sealed, id.privateKey[..32], id.hash).Opened? {
      AcceptsExactlyTheFrame(e.open(sealed, id.privateKey[..32], id.hash).plain, id.hash, hub, room, key);
    }
  }

  /** Frames of different contexts or keys differ. */
  lemma FrameIsInjective(identity: Bytes, hub: Bytes, room: Bytes, key: Bytes,
                         identity': Bytes, hub': Bytes, room': Bytes, key': Bytes)
    requires |identity| == |hub| == |identity'| == |hub'| == 16
    requires |room| <= ROOM_BUFFER && |room'| <= ROOM_BUFFER && |key| <= MAX_KEY && |key'| <= MAX_KEY
    requires Frame(identity, hub, room, key) == Frame(identity', hub', room', key')
    ensures identity == identity' && hub == hub' && room == room' && key == key'
  {
    hide Frame, ToBigEndian;
    FrameLayout(identity, hub, room, key);
    FrameLayout(identity', hub', room', key');
    WidthValues();
    BigEndianInverse(|room|, 2);
    BigEndianInverse(|room'|, 2);
  }

  /** One sealed text never opens under two hubs or two rooms of an identity. */
  lemma OneContext(u: Casing.Unicode, e: Ecies, id: Identity, hub: Bytes, room: Bytes, hub': Bytes, room': Bytes,
                   sealed: Bytes, capacity: nat, key: Bytes, capacity': nat, key': Bytes)
    requires Shaped(id) && |hub| == |hub'| == 16
    requires UnsealSpec(u, e, Loaded(id), hub, room, sealed, capacity) == (StatusOk, key)
    requires UnsealSpec(u, e, Loaded(id), hub', room', sealed, capacity') == (StatusOk, key')
    ensures hub == hub' && room == room' && key == key'
  {
    hide Canonical, KeyIn, UnsealSpec, Frame;
    UnsealAccepts(u, e, id, hub, room, sealed, capacity, key);
    UnsealAccepts(u, e, id, hub', room', sealed, capacity', key');
    FrameIsInjective(id.hash, hub, room, key, id.hash, hub', room', key');
  }

  /** What sealing returned, unsealing under the same context gives the key back, whatever buffer holds it. */
  lemma UnsealInvertsSeal(u: Casing.Unicode, e: Ecies, id: Identity, hub: Bytes, room: Bytes, key: Bytes,
                          entropy: Bytes, capacity: nat, held: nat)
    requires Shaped(id) && |hub| == 16 && |entropy| == 48 && EciesFits(e) && EciesOpens(e, id)
    requires SealSpec(u, e, Loaded(id), hub, room, key, entropy, capacity).0 == StatusOk
    requires |key| <= held <= MAX_SEALED
    ensures UnsealSpec(u, e, Loaded(id), hub, room, SealSpec(u, e, Loaded(id), hub, room, key, entropy, capacity).1, held)
         == (StatusOk, key)
  {
    hide Canonical, KeyIn, UnsealSpec, Frame, Utf8.Valid;
    var sealed := SealSpec(u, e, Loaded(id), hub, room, key, entropy, capacity).1;
    assert e.open(sealed, id.privateKey[..32], id.hash) == Opened(Frame(id.hash, hub, room, key));
    UnsealAccepts(u, e, id, hub, room, sealed, held, key);
  }

  /** A sealed key is refused under any other hub or canonical room. */
  lemma OtherContextRefuses(u: Casing.Unicode, e: Ecies, id: Identity, hub: Bytes, room: Bytes, hub': Bytes, room': Bytes,
                            key: Bytes, entropy: Bytes, capacity: nat, held: nat)
    requires Shaped(id) && |hub| == |hub'| == 16 && |entropy| == 48 && EciesFits(e) && EciesOpens(e, id)
    requires SealSpec(u, e, Loaded(id), hub, room, key, entropy, capacity).0 == StatusOk
    requires 1 <= |room'| <= ROOM_BUFFER && Canonical(u, room') && held <= MAX_SEALED
    requires hub' != hub || room' != room
    ensures UnsealSpec(u, e, Loaded(id), hub', room', SealSpec(u, e, Loaded(id), hub, room, key, entropy, capacity).1, held)
         == (ErrCrypto, [])
  {
    hide Canonical, KeyIn, Frame, Utf8.Valid;
    var plain := Frame(id.hash, hub, room, key);
    match KeyIn(plain, id.hash, hub', room')
    case Err(_) =>
    case Ok(other) =>
      AcceptsExactlyTheFrame(plain, id.hash, hub', room', other);
      FrameIsInjective(id.hash, hub, room, key, id.hash, hub', room', other);
  }

  // ---- What the two calls answer -------------------------------------------------------------

  /** The octets that are encrypted: the format's name and version, the context, two lengths, the room and the key. */
  function Plain(identity: Bytes, hub: Bytes, room: Bytes, key: Bytes): Bytes
    requires |room| < 0x1_0000 && |key| < 0x1_0000
  {
    Octets("RSCHKEY") + [0, 1] + identity + hub + [|room| / 256, |room| % 256] + [|key| / 256, |key| % 256] + room + key
  }

  function Octets(s: string): (o: Bytes)
    requires forall i :: 0 <= i < |s| ==> s[i] < 256 as char
    ensures |o| == |s| && forall i :: 0 <= i < |s| ==> o[i] == s[i] as int
  {
    seq(|s|, i requires 0 <= i < |s| => s[i] as int)
  }

  lemma PlainIsFrame(identity: Bytes, hub: Bytes, room: Bytes, key: Bytes)
    requires |room| < 0x1_0000 && |key| < 0x1_0000
    ensures Plain(identity, hub, room, key) == Frame(identity, hub, room, key)
  {
    TwoOctets(|room|);
    TwoOctets(|key|);
    hide ToBigEndian;
    assert Octets("RSCHKEY") + [0, 1] == MAGIC;
  }

  lemma TwoOctets(n: nat)
    requires n < 0x1_0000
    ensures ToBigEndian(n, 2) == [n / 256, n % 256]
  {
    assert ToBigEndian(n / 256, 1) == ToBigEndian(n / 256 / 256, 0) + [n / 256 % 256];
  }

  /** The plaintext goes to the identity's public half under its hash, with the caller's 32 and 16 random octets. */
  lemma SealAnswers(u: Casing.Unicode, e: Ecies, loaded: Loaded, hub: Bytes, room: Bytes, key: Bytes,
                    ephemeral: Bytes, vector: Bytes, capacity: nat)
    requires |ephemeral| == 32 && |vector| == 16 && (loaded.Loaded? ==> Shaped(loaded.identity))
    ensures var r := SealSpec(u, e, loaded, hub, room, key, ephemeral + vector, capacity);
            if room == [] || |room| > 64 || key == [] || |key| > 160 || capacity > 431 then r == (ErrInvalidArg, [])
            else if loaded.NoIdentity? then r == (ErrNotReady, [])
            else if NormalizeSpec(u, room, 0) != Ok(room) || !Utf8.Valid(key) then r == (ErrInvalidArg, [])
            else
              var id := loaded.identity;
              match e.seal(Plain(id.hash, hub, room, key), id.publicKey[..32], id.hash, ephemeral, vector, capacity)
              case Sealed(text) => r == (StatusOk, text)
              case OutputTooSmall => r == (ErrCapacity, [])
              case SealFailed => r == (ErrCrypto, [])
  {
    hide NormalizeSpec, Utf8.Valid, Plain, Frame;
    var entropy := ephemeral + vector;
    assert entropy[..32] == ephemeral && entropy[32..] == vector;
    if loaded.Loaded? && |room| <= 64 && |key| <= 160 {
      PlainIsFrame(loaded.identity.hash, hub, room, key);
    }
  }

  /** What is opened with the private half under the hash gives its key when it is the plaintext of this context, else nothing. */
  lemma UnsealAnswers(u: Casing.Unicode, e: Ecies, loaded: Loaded, hub: Bytes, room: Bytes, sealed: Bytes, capacity: nat)
    requires |hub| == 16 && (loaded.Loaded? ==> Shaped(loaded.identity))
    ensures var r := UnsealSpec(u, e, loaded, hub, room, sealed, capacity);
            if room == [] || |room| > 64 || |sealed| > 431 || capacity > 431 then r == (ErrInvalidArg, [])
            else if loaded.NoIdentity? then r == (ErrNotReady, [])
            else if NormalizeSpec(u, room, 0) != Ok(room) then r == (ErrInvalidArg, [])
            else
              var opening := e.open(sealed, loaded.identity.privateKey[..32], loaded.identity.hash);
              if opening.NotOpened? then r == (ErrCrypto, [])
              else
                && (forall key: Bytes :: IsKeyOf(opening.plain, loaded.identity.hash, hub, room, key) ==>
                      r == if |key| <= capacity then (StatusOk, key) else (ErrCapacity, []))
                && ((forall key: Bytes :: !IsKeyOf(opening.plain, loaded.identity.hash, hub, room, key)) ==> r == (ErrCrypto, []))
  {
    hide NormalizeSpec, KeyIn, IsKeyOf;
    if loaded.Loaded? && 1 <= |room| <= 64 {
      var opening := e.open(sealed, loaded.identity.privateKey[..32], loaded.identity.hash);
      if opening.Opened? {
        forall key: Bytes ensures IsKeyOf(opening.plain, loaded.identity.hash, hub, room, key) <==> KeyIn(opening.plain, loaded.identity.hash, hub, room) == Ok(key) {
          KeyOfMeans(opening.plain, loaded.identity.hash, hub, room, key);
        }
        if KeyIn(opening.plain, loaded.identity.hash, hub, room).Ok? {
          assert IsKeyOf(opening.plain, loaded.identity.hash, hub, room, KeyIn(opening.plain, loaded.identity.hash, hub, room).value);
        }
      }
    }
  }

  /** `plain` is the plaintext of this context around `key`, one to 160 octets of UTF-8. */
  predicate IsKeyOf(plain: Bytes, identity: Bytes, hub: Bytes, room: Bytes, key: Bytes)
    requires |room| <= 64
  {
    1 <= |key| <= 160 && Utf8.Valid(key) && plain == Plain(identity, hub, room, key)
  }

  lemma KeyOfMeans(plain: Bytes, identity: Bytes, hub: Bytes, room: Bytes, key: Bytes)
    requires |identity| == |hub| == 16 && |room| <= 64
    ensures IsKeyOf(plain, identity, hub, room, key) <==> KeyIn(plain, identity, hub, room) == Ok(key)
  {
    hide KeyIn, Plain, Frame, Utf8.Valid;
    AcceptsExactlyTheFrame(plain, identity, hub, room, key);
    if |key| <= 160 {
      PlainIsFrame(identity, hub, room, key);
    }
  }
}
