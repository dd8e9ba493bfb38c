/** File contents and their SHA-256 names. */
module Content {
  newtype byte = x: int | 0 <= x < 256

  type Bytes = seq<byte>

  const MAX_INT64: int := 0x7fff_ffff_ffff_ffff

  /** 64 lower-case hexadecimal digits. */
  predicate ShaValid(s: string) {
    |s| == 64 && forall i :: 0 <= i < 64 ==> '0' <= s[i] <= '9' || 'a' <= s[i] <= 'f'
  }

  type HashName = s: string | ShaValid(s) witness seq(64, _ => '0')

  /** One archive member; its declared size is the length of its data. */
  datatype TarKind = RegularEntry | DirectoryEntry | OtherEntry

  datatype TarEntry = TarEntry(name: string, kind: TarKind, mode: nat, data: Bytes)

  /** JSON tokens as a streaming decoder delivers them. */
  datatype Token = OpenObject | CloseObject | OpenArray | CloseArray
                 | Text(text: string) | Number(spelling: string) | Bool(value: bool) | Null

  /** What a file holds, already decoded where the repository decodes it: plain bytes,
      text lines, a tar stream (sound when it ends in an intact trailer), or JSON. */
  datatype Body =
    | Raw(bytes: Bytes)
    | Lines(text: string)
    | Tar(entries: seq<TarEntry>, sound: bool)
    | Json(length: nat, tokens: seq<Token>)
  {
    function Size(): nat {
      match this
      case Raw(bytes) => |bytes|
      case Lines(text) => |text|
      case Tar(entries, _) => TarSize(entries)
      case Json(length, _) => length
    }
  }

  /** Data is padded to whole 512-byte blocks. */
  function Padded(n: nat): (p: nat)
    ensures p % 512 == 0 && n <= p < n + 512
  {
    (n + 511) / 512 * 512
  }

  /** One 512-byte header per member, its padded data, and a trailer of two zero blocks
      (POSIX.1 pax utility, section "ustar Interchange Format"). */
  function TarSize(entries: seq<TarEntry>): nat {
    MembersSize(entries) + 1024
  }

  function MembersSize(entries: seq<TarEntry>): nat {
    if entries == [] then 0
    else MembersSize(entries[..|entries| - 1]) + 512 + Padded(|entries[|entries| - 1].data|)
  }

  /** SHA-256, as hexadecimal text. Nothing is known of it but its shape. */
  const Sha256: Body -> HashName

  function ObjectName(bytes: Bytes): (h: string)
    ensures ShaValid(h)
  {
    Sha256(Raw(bytes))
  }

  /** The cryptographic assumption: no two different members of a universe of contents
      share a SHA-256. Only statements that compare contents by name need it. */
  ghost predicate CollisionFree(universe: iset<Bytes>) {
    forall a, b :: a in universe && b in universe && ObjectName(a) == ObjectName(b) ==> a == b
  }
}
