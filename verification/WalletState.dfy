/** Exporting and importing the wallet's state (client/wallet/wallet.go, tools/cli-wallet/lib.go). */
module WalletState {
  import opened BitMasks
  import opened Ledger
  import opened AddressManagement

  newtype Byte = x: int | 0 <= x < 256

  const SEED_SIZE: nat := 32

  // ---- Numbers as bytes, least significant first ------------------------------------------------------------

  function Pow256(k: nat): nat {
    if k == 0 then 1 else 256 * Pow256(k - 1)
  }

  function ToBytes(n: nat, k: nat): (bytes: seq<Byte>)
    ensures |bytes| == k
  {
    if k == 0 then [] else [(n % 256) as Byte] + ToBytes(n / 256, k - 1)
  }

  function FromBytes(bytes: seq<Byte>): nat {
    if bytes == [] then 0 else bytes[0] as int + 256 * FromBytes(bytes[1..])
  }

  lemma FirstByte(b: Byte, high: seq<Byte>)
    ensures FromBytes([b] + high) == b as int + 256 * FromBytes(high)
  {
    assert ([b] + high)[1..] == high;
  }

  /** A number that fits is read back as it was written. */
  lemma {:induction false} NumberRoundTrip(n: nat, k: nat)
    requires n < Pow256(k)
    ensures FromBytes(ToBytes(n, k)) == n
  {
    if k > 0 {
      var high := ToBytes(n / 256, k - 1);
      NumberRoundTrip(n / 256, k - 1);
      FirstByte((n % 256) as Byte, high);
    }
  }

  function ByteOf(mask: BitMask): Byte {
    (mask as int) as Byte
  }

  function MaskOf(b: Byte): BitMask {
    (b as int) as BitMask
  }

  /** The masks of spent addresses are written byte by byte. */
  function MaskBytes(masks: seq<BitMask>): seq<Byte> {
    if masks == [] then [] else [ByteOf(masks[0])] + MaskBytes(masks[1..])
  }

  function Masks(bytes: seq<Byte>): seq<BitMask> {
    if bytes == [] then [] else [MaskOf(bytes[0])] + Masks(bytes[1..])
  }

  lemma MaskIsByte(mask: BitMask)
    ensures MaskOf(ByteOf(mask)) == mask && ByteOf(mask) as int == mask as int
  {
  }

  /** Each mask is one byte, in order. */
  lemma {:induction false} MaskIsAt(masks: seq<BitMask>, i: nat)
    requires i < |masks|
    ensures |MaskBytes(masks)| == |masks| && MaskBytes(masks)[i] as int == masks[i] as int
  {
    MaskIsByte(masks[0]);
    if |masks| > 1 {
      MaskIsAt(masks[1..], if i > 0 then i - 1 else 0);
    }
  }

  lemma OneMaskMore(b: Byte, bytes: seq<Byte>)
    ensures Masks([b] + bytes) == [MaskOf(b)] + Masks(bytes)
  {
    assert ([b] + bytes)[1..] == bytes;
  }

  lemma {:induction false} MasksRoundTrip(masks: seq<BitMask>)
    ensures Masks(MaskBytes(masks)) == masks
  {
    if masks != [] {
      var first, rest := masks[0], masks[1..];
      MasksRoundTrip(rest);
      OneMaskMore(ByteOf(first), MaskBytes(rest));
      MaskIsByte(first);
      assert masks == [first] + rest;
    }
  }

  // ---- The marshalling buffer -------------------------------------------------------------------------------

  /** Bytes that are appended at the end and read from a cursor. */
  class MarshalUtil {
    var bytes: seq<Byte>
    var readOffset: nat

    constructor (bytes: seq<Byte>)
      ensures this.bytes == bytes && readOffset == 0
    {
      this.bytes := bytes;
      readOffset := 0;
    }

    method WriteBytes(b: seq<Byte>)
      modifies this
      ensures bytes == old(bytes) + b && readOffset == old(readOffset)
    {
      bytes := bytes + b;
    }

    method WriteUint64(n: nat)
      modifies this
      ensures bytes == old(bytes) + ToBytes(n, 8) && readOffset == old(readOffset)
    {
      bytes := bytes + ToBytes(n, 8);
    }

    method ReadBytes(length: nat) returns (r: Option<seq<Byte>>)
      requires readOffset <= |bytes|
      modifies this
      ensures bytes == old(bytes) && readOffset <= |bytes|
      ensures r.Some? <==> old(readOffset) + length <= |bytes|
      ensures if r.Some? then r.value == bytes[old(readOffset)..old(readOffset) + length] && readOffset == old(readOffset) + length
        else readOffset == old(readOffset)
    {
      if |bytes| < readOffset + length {
        return None;
      }
      r := Some(bytes[readOffset..readOffset + length]);
      readOffset := readOffset + length;
    }

    method ReadUint64() returns (r: Option<nat>)
      requires readOffset <= |bytes|
      modifies this
      ensures bytes == old(bytes) && readOffset <= |bytes|
      ensures r.Some? <==> old(readOffset) + 8 <= |bytes|
      ensures if r.Some? then r.value == FromBytes(bytes[old(readOffset)..old(readOffset) + 8]) && readOffset == old(readOffset) + 8
        else readOffset == old(readOffset)
    {
      var b := ReadBytes(8);
      r := if b.Some? then Some(FromBytes(b.value)) else None;
    }

    method ReadRemainingBytes() returns (r: seq<Byte>)
      requires readOffset <= |bytes|
      modifies this
      ensures bytes == old(bytes) && readOffset == |bytes| && r == bytes[old(readOffset)..]
    {
      r := bytes[readOffset..];
      readOffset := |bytes|;
    }
  }

  // ---- Export and import ------------------------------------------------------------------------------------

  /** The asset registry's own encoding. A decoder returns what it decoded and how many bytes that took. */
  datatype Codec<!Registry> = Codec(encode: Registry -> seq<Byte>, decode: seq<Byte> -> Option<(Registry, nat)>)

  ghost predicate WithinBounds<Registry>(codec: Codec<Registry>) {
    forall b :: codec.decode(b).Some? ==> codec.decode(b).value.1 <= |b|
  }

  /** The decoder stops where the encoding ends, whatever follows. */
  ghost predicate SelfDelimiting<Registry(!new)>(codec: Codec<Registry>) {
    forall r, rest :: codec.decode(codec.encode(r) + rest) == Some((r, |codec.encode(r)|))
  }

  method ExportState<Registry>(seed: seq<Byte>, m: AddressManager, registry: Registry, codec: Codec<Registry>)
    returns (bytes: seq<Byte>)
    ensures bytes == seed + ToBytes(m.lastAddressIndex, 8) + codec.encode(registry) + MaskBytes(m.spentAddresses)
  {
    var marshalUtil := new MarshalUtil([]);
    ghost var number, assets, masks := ToBytes(m.lastAddressIndex, 8), codec.encode(registry), MaskBytes(m.spentAddresses);
    marshalUtil.WriteBytes(seed);
    assert marshalUtil.bytes == seed;
    marshalUtil.WriteUint64(m.lastAddressIndex);
    assert marshalUtil.bytes == seed + number;
    marshalUtil.WriteBytes(codec.encode(registry));
    assert marshalUtil.bytes == seed + number + assets;
    marshalUtil.WriteBytes(MaskBytes(m.spentAddresses));
    assert marshalUtil.bytes == seed + number + assets + masks;
    bytes := marshalUtil.bytes;
  }

  /** `failed` is the error; a registry that cannot be parsed is an error, yet the remaining bytes are returned. */
  datatype Imported<Registry> =
    Imported(seed: seq<Byte>, lastAddressIndex: nat, spentAddresses: seq<BitMask>, registry: Option<Registry>, failed: bool)

  method ImportWalletStateFile<Registry>(walletStateBytes: seq<Byte>, codec: Codec<Registry>)
    returns (r: Imported<Registry>)
    requires WithinBounds(codec)
    ensures |walletStateBytes| < SEED_SIZE + 8 ==> r.failed
    ensures |walletStateBytes| >= SEED_SIZE + 8 ==>
      var parsed := codec.decode(walletStateBytes[SEED_SIZE + 8..]);
      && r.seed == walletStateBytes[..SEED_SIZE]
      && r.lastAddressIndex == FromBytes(walletStateBytes[SEED_SIZE..SEED_SIZE + 8])
      && r.failed == parsed.None?
      && r.registry == (if parsed.Some? then Some(parsed.value.0) else None)
      && r.spentAddresses == Masks(walletStateBytes[SEED_SIZE + 8 + (if parsed.Some? then parsed.value.1 else 0)..])
  {
    r := Imported([], 0, [], None, true);
    var marshalUtil := new MarshalUtil(walletStateBytes);
    var seedBytes := marshalUtil.ReadBytes(SEED_SIZE);
    if seedBytes.None? {
      return;
    }
    r := r.(seed := seedBytes.value);
    var lastAddressIndex := marshalUtil.ReadUint64();
    if lastAddressIndex.None? {
      return;
    }
    assert marshalUtil.readOffset == SEED_SIZE + 8;
    var parsed := codec.decode(walletStateBytes[marshalUtil.readOffset..]);
    if parsed.Some? {
      marshalUtil.readOffset := marshalUtil.readOffset + parsed.value.1;
    }
    var spentAddressesBytes := marshalUtil.ReadRemainingBytes();
    r := Imported(seedBytes.value, lastAddressIndex.value, Masks(spentAddressesBytes),
      if parsed.Some? then Some(parsed.value.0) else None, parsed.None?);
  }

  lemma FourParts(a: seq<Byte>, b: seq<Byte>, c: seq<Byte>, d: seq<Byte>)
    ensures var all := a + b + c + d;
      && all[..|a|] == a && all[|a|..|a| + |b|] == b
      && all[|a| + |b|..] == c + d && all[|a| + |b| + |c|..] == d
  {
  }

  /**
   * What was exported is imported again, and a manager rebuilt from it has, after one sweep over its addresses, the
   * same caches as the one that was exported.
   */
  method ExportAndRestore<Registry(!new)>(seed: seq<Byte>, derive: seq<Byte> -> nat -> LedgerAddress, m: AddressManager,
                                          registry: Registry, codec: Codec<Registry>)
    returns (imported: Imported<Registry>, copy: AddressManager)
    requires |seed| == SEED_SIZE && m.Valid() && m.lastAddressIndex < Pow256(8) && m.seed == derive(seed)
    requires WithinBounds(codec) && SelfDelimiting(codec)
    ensures imported == Imported(seed, m.lastAddressIndex, m.spentAddresses, Some(registry), false)
    ensures fresh(copy) && copy.Valid() && copy.seed == m.seed
    ensures copy.Spent() == m.Spent() && copy.lastAddressIndex == m.lastAddressIndex
    ensures copy.firstUnspentAddressIndex == m.firstUnspentAddressIndex
    ensures copy.lastUnspentAddressIndex == m.lastUnspentAddressIndex
  {
    var bytes := ExportState(seed, m, registry, codec);
    imported := ImportWalletStateFile(bytes, codec);
    NumberRoundTrip(m.lastAddressIndex, 8);
    FourParts(seed, ToBytes(m.lastAddressIndex, 8), codec.encode(registry), MaskBytes(m.spentAddresses));
    MasksRoundTrip(m.spentAddresses);
    copy := new AddressManager(derive(imported.seed), imported.lastAddressIndex, imported.spentAddresses);
    var _ := copy.Addresses();
  }
}
