/**
 * file_reader: the header parser and the block-cached decrypting reader of the E3D container.
 */
module E3DReader {
  import opened Common
  import opened Gf256
  import opened Rijndael
  import opened Cryptor
  import opened Ecb
  import opened Files
  import opened Blocks
  import opened LeafWalk

  class FileReader {
    var m_remux_sig: seq<Byte>
    var m_block_size: int
    var m_block_cache: array?<Byte>
    const m_keyhint: array<Byte>
    var m_hash: seq<Byte>
    var m_cache_pos: int
    var m_pos: int
    var m_file_size: int
    var m_start_in_file: int
    var m_layout: int
    var m_file_pos_cache: int
    var m_is_encrypted: bool
    var m_key_ok: bool
    var m_file: OsFile
    const m_codec: AESCryptor

    constructor (tabs: Tables)
      requires tabs.Allocated()
      ensures m_file_size == 0 && m_block_size == 0 && m_cache_pos == -1
      ensures !m_is_encrypted && !m_key_ok && m_block_cache == null
      ensures m_keyhint.Length == 32 && fresh(m_keyhint)
      ensures m_codec.tabs == tabs && m_codec.Allocated() && fresh(m_codec) && fresh(m_codec.e_key)
        && fresh(m_codec.d_key)
    {
      m_file_size := 0;
      m_block_size := 0;
      m_cache_pos := -1;
      m_is_encrypted := false;
      m_key_ok := false;
      m_file := new OsFile([]);
      m_block_cache := null;
      m_keyhint := new Byte[32](_ => ZERO);
      m_codec := new AESCryptor(tabs);
    }

    /** The codec has the key and, from m_start_in_file on, the file holds the encryption of padded. */
    ghost predicate Attached(key: Key, padded: seq<Byte>)
      reads `m_file, `m_start_in_file, m_file`data, m_codec, m_codec.tabs.Repr(), m_codec.e_key, m_codec.d_key
      ensures Attached(key, padded) ==> m_start_in_file >= 0
    {
      && m_codec.Keyed(key)
      && m_start_in_file >= 0 && BodyAt(key, padded, m_file.data, m_start_in_file)
    }

    /** Whole blocks of padded cover the plaintext, which is its first m_file_size bytes. */
    ghost predicate Positions(padded: seq<Byte>)
      reads `m_file, `m_block_size, `m_pos, `m_file_size, `m_file_pos_cache, m_file`pos
    {
      && m_block_size > 0 && m_block_size % 16 == 0 && |padded| % m_block_size == 0
      && 0 <= m_pos && 0 <= m_file_size <= |padded|
      && m_file_pos_cache == m_file.pos
    }

    /** The cached block, if any, is the plaintext at m_cache_pos. */
    ghost predicate CacheOk(padded: seq<Byte>)
      reads `m_block_size, `m_block_cache, `m_cache_pos, m_block_cache
    {
      && m_block_size > 0 && m_block_cache != null && m_block_cache.Length == m_block_size
      && (m_cache_pos == -1 ||
          (&& 0 <= m_cache_pos && m_cache_pos % m_block_size == 0
           && m_cache_pos + m_block_size <= |padded|
           && m_block_cache[..] == padded[m_cache_pos..m_cache_pos + m_block_size]))
    }

    /**
     * The reader is open on an encrypted body: the cached block is the plaintext at m_cache_pos and
     * m_file_pos_cache is where the OS position really is.
     */
    ghost predicate Open(key: Key, padded: seq<Byte>)
      reads this, m_file, m_block_cache, m_codec, m_codec.tabs.Repr(), m_codec.e_key, m_codec.d_key
    {
      && m_is_encrypted && m_key_ok
      && Attached(key, padded) && Positions(padded) && CacheOk(padded)
      && m_block_cache !in m_codec.tabs.Repr()
    }

    /** if (li.QuadPart != m_file_pos_cache) { m_file_pos_cache = li.QuadPart; SetFilePointerEx(...); } */
    method SeekFile(target: nat)
      requires m_file_pos_cache == m_file.pos
      modifies this`m_file_pos_cache, m_file`pos
      ensures m_file_pos_cache == m_file.pos == target
    {
      if target != m_file_pos_cache {
        m_file_pos_cache := target;
        m_file.SeekTo(target);
      }
    }

    /** Read the encrypted bytes of padded[at..at + n] from the file into buf at o, and decrypt them there. */
    method Fetch(buf: array<Byte>, o: nat, at: nat, n: nat, ghost key: Key, ghost padded: seq<Byte>)
      returns (byte_read: nat)
      requires Attached(key, padded) && buf !in m_codec.tabs.Repr() && o + n <= buf.Length
      requires at % 16 == 0 && n % 16 == 0 && at + n <= |padded|
      requires m_file.pos == m_start_in_file + at
      modifies m_file`pos, buf
      ensures Attached(key, padded)
      ensures byte_read == n && m_file.pos == old(m_file.pos) + n
      ensures buf[..] == Put(old(buf[..]), o, padded, at, n)
    {
      hide AESCryptor.Keyed, Encode, Decode, BodyAt, Splice, Tables.Repr, Put;
      ghost var was := buf[..];
      PutIsSplice(was, o, padded, at, n);
      BodyBounds(key, padded, m_file.data, m_start_in_file);
      ghost var raw := m_file.data[m_start_in_file + at..m_start_in_file + at + n];
      FetchedBlocks(key, padded, at, n, m_file.data, m_start_in_file, raw);
      byte_read := ReadRaw(buf, o, n, key, raw);
      DecryptRaw(buf, o, n, key, was, raw);
    }

    method ReadRaw(buf: array<Byte>, o: nat, n: nat, ghost key: Key, ghost raw: seq<Byte>) returns (byte_read: nat)
      requires m_codec.Keyed(key) && buf !in m_codec.tabs.Repr() && o + n <= buf.Length
      requires m_file.pos + n <= |m_file.data| && raw == m_file.data[m_file.pos..m_file.pos + n]
      modifies m_file`pos, buf
      ensures m_codec.Keyed(key)
      ensures byte_read == n && m_file.pos == old(m_file.pos) + n
      ensures buf[..] == Splice(old(buf[..]), o, raw)
    {
      hide AESCryptor.Keyed, Splice;
      byte_read := m_file.Read(buf, o, n);
    }

    method DecryptRaw(buf: array<Byte>, o: nat, n: nat, ghost key: Key, ghost was: seq<Byte>, ghost raw: seq<Byte>)
      requires m_codec.Keyed(key) && buf !in m_codec.tabs.Repr()
      requires |was| == buf.Length && o + n <= buf.Length && |raw| == n && n % 16 == 0
      requires buf[..] == Splice(was, o, raw)
      modifies buf
      ensures m_codec.Keyed(key) && buf[..] == Splice(was, o, Decode(key, raw))
    {
      hide AESCryptor.Keyed, Splice, Decode;
      SplicedPart(was, o, raw);
      DecryptInPlace(m_codec, buf, o, n, key);
      SpliceOver(was, o, raw, Decode(key, raw));
    }

    /** Move to the block that starts at m_cache_pos, read it and decrypt it into the cache. */
    method FetchBlock(ghost key: Key, ghost padded: seq<Byte>) returns (byte_read: nat)
      requires Attached(key, padded) && Positions(padded)
      requires m_block_cache != null && m_block_cache.Length == m_block_size && m_block_cache !in m_codec.tabs.Repr()
      requires 0 <= m_cache_pos < |padded| && m_cache_pos % m_block_size == 0
      modifies this`m_file_pos_cache, m_file`pos, m_block_cache
      ensures Attached(key, padded) && CacheOk(padded)
      ensures byte_read == m_block_size && m_file.pos == m_file_pos_cache + byte_read
    {
      hide Attached, Put;
      BlockFits(m_cache_pos, m_block_size, |padded|);
      MultipleOf16(m_cache_pos, m_block_size);
      SeekFile(m_start_in_file + m_cache_pos);
      ghost var was := m_block_cache[..];
      byte_read := Fetch(m_block_cache, 0, m_cache_pos, m_block_size, key, padded);
      WholePut(was, padded, m_cache_pos);
    }

    /** Have the block that m_pos is in in the cache. */
    method CacheBlock(ghost key: Key, ghost padded: seq<Byte>)
      requires Open(key, padded) && m_pos < |padded|
      modifies this`m_cache_pos, this`m_file_pos_cache, m_file`pos, m_block_cache
      ensures Open(key, padded) && m_cache_pos == BlockStart(m_pos, m_block_size)
    {
      hide Attached;
      BlockStartBounds(m_pos, m_block_size);
      if m_cache_pos != BlockStart(m_pos, m_block_size) {
        m_cache_pos := BlockStart(m_pos, m_block_size);
        var byte_read := FetchBlock(key, padded);
        m_file_pos_cache := m_file_pos_cache + m_block_size;
      }
    }

    ghost predicate PositionFits()
      reads `m_pos, `m_file_size
    {
      m_pos >= 0 && m_file_size >= 0 && ClampFits(m_pos, m_file_size)
    }

    ghost predicate Aligned()
      reads `m_block_size, `m_pos
    {
      m_block_size > 0 && m_pos >= 0 && m_pos % m_block_size == 0
    }

    ghost predicate Buffer(buf: array<Byte>)
      reads `m_block_cache
    {
      buf !in m_codec.tabs.Repr() && buf != m_block_cache
    }

    /** memcpy(tmp, m_block_cache + m_pos - m_cache_pos, n), and the position moves on. */
    method CopyFromCache(buf: array<Byte>, o: nat, n: nat, ghost key: Key, ghost padded: seq<Byte>)
      requires Open(key, padded) && Buffer(buf) && o + n <= buf.Length && m_pos + n <= m_file_size
      requires 0 <= m_cache_pos <= m_pos && m_pos + n <= m_cache_pos + m_block_size
      modifies this`m_pos, buf
      ensures Open(key, padded) && m_pos == old(m_pos) + n
      ensures buf[..] == Put(old(buf[..]), o, padded, old(m_pos), n)
    {
      hide Attached, Splice;
      SliceOfSlice(padded, m_cache_pos, m_block_size, m_pos - m_cache_pos, n);
      CopyTo(m_block_cache, m_pos - m_cache_pos, n, buf, o);
      m_pos := m_pos + n;
    }

    /** The part of a read that ends the block the position is in. */
    method ReadHead(buf: array<Byte>, nToRead: nat, ghost key: Key, ghost padded: seq<Byte>) returns (got: nat)
      requires Open(key, padded) && Buffer(buf)
      requires 0 < nToRead <= buf.Length && m_pos + nToRead <= m_file_size && !Aligned()
      modifies this`m_cache_pos, this`m_file_pos_cache, this`m_pos, m_file`pos, m_block_cache, buf
      ensures Open(key, padded)
      ensures got <= nToRead && m_pos == old(m_pos) + got && (got < nToRead ==> Aligned())
      ensures buf[..] == Put(old(buf[..]), 0, padded, old(m_pos), got)
    {
      hide Attached, Splice, CacheOk, Put;
      CacheBlock(key, padded);
      BlockStartBounds(m_pos, m_block_size);
      got := if m_cache_pos + m_block_size - m_pos < nToRead then m_cache_pos + m_block_size - m_pos else nToRead;
      MultipleMod(1, m_block_size);
      SumOfMultiples(m_cache_pos, m_block_size, m_block_size);
      CopyFromCache(buf, 0, got, key, padded);
    }

    /** The whole blocks of a read, straight into the caller's buffer. */
    method ReadMain(buf: array<Byte>, o: nat, nToRead: nat, ghost key: Key, ghost padded: seq<Byte>)
      returns (byte_read: nat)
      requires Open(key, padded) && Buffer(buf) && Aligned()
      requires m_block_size < nToRead && o + nToRead <= buf.Length && m_pos + nToRead <= m_file_size
      modifies this`m_file_pos_cache, this`m_pos, m_file`pos, buf
      ensures Open(key, padded) && Aligned()
      ensures byte_read <= nToRead < byte_read + m_block_size && m_pos == old(m_pos) + byte_read
      ensures buf[..] == Put(old(buf[..]), o, padded, old(m_pos), byte_read)
    {
      hide Attached, Splice, CacheOk, Put, BlockStart;
      byte_read := BlockStart(nToRead, m_block_size);
      WholeBlocks(nToRead);
      SeekFile(m_pos + m_start_in_file);
      FetchMain(buf, o, byte_read, key, padded);
      MoveOn(byte_read, padded);
    }

    /** Both positions move on by what has been read. */
    method MoveOn(n: nat, ghost padded: seq<Byte>)
      requires m_block_size > 0 && m_block_size % 16 == 0 && |padded| % m_block_size == 0
      requires 0 <= m_pos && m_pos + n <= m_file_size <= |padded| && (m_pos + n) % m_block_size == 0
      requires m_file.pos == m_file_pos_cache + n
      modifies `m_file_pos_cache, `m_pos
      ensures Positions(padded) && Aligned() && m_pos == old(m_pos) + n
    {
      m_file_pos_cache := m_file_pos_cache + n;
      m_pos := m_pos + n;
    }

    lemma WholeBlocks(nToRead: nat)
      requires Aligned() && m_block_size % 16 == 0
      ensures var n := BlockStart(nToRead, m_block_size);
        && n <= nToRead < n + m_block_size
        && n % 16 == 0 && m_pos % 16 == 0 && (m_pos + n) % m_block_size == 0
    {
      var n := BlockStart(nToRead, m_block_size);
      BlockStartBounds(nToRead, m_block_size);
      MultipleOf16(m_pos, m_block_size);
      MultipleOf16(n, m_block_size);
      SumOfMultiples(m_pos, n, m_block_size);
    }

    /** The OS read is assumed to deliver all it was asked for. */
    method FetchMain(buf: array<Byte>, o: nat, n: nat, ghost key: Key, ghost padded: seq<Byte>)
      requires Open(key, padded) && Buffer(buf) && o + n <= buf.Length && m_pos + n <= m_file_size
      requires m_pos % 16 == 0 && n % 16 == 0 && m_file.pos == m_start_in_file + m_pos
      modifies m_file`pos, buf
      ensures Attached(key, padded) && CacheOk(padded) && m_file.pos == old(m_file.pos) + n
      ensures buf[..] == Put(old(buf[..]), o, padded, m_pos, n)
    {
      hide Attached, Splice;
      var byte_read := Fetch(buf, o, m_pos, n, key, padded);
    }

    /** What is left, at most one block, through the cache. */
    method ReadTail(buf: array<Byte>, o: nat, nToRead: nat, ghost key: Key, ghost padded: seq<Byte>)
      requires Open(key, padded) && Buffer(buf) && Aligned()
      requires 0 < nToRead <= m_block_size && o + nToRead <= buf.Length && m_pos + nToRead <= m_file_size
      modifies this`m_cache_pos, this`m_file_pos_cache, this`m_pos, m_file`pos, m_block_cache, buf
      ensures Open(key, padded)
      ensures m_pos == old(m_pos) + nToRead
      ensures buf[..] == Put(old(buf[..]), o, padded, old(m_pos), nToRead)
    {
      hide Attached, Splice, Put;
      m_cache_pos := m_pos;
      var byte_read := FetchBlock(key, padded);
      m_file_pos_cache := m_file_pos_cache + byte_read;
      CopyFromCache(buf, o, nToRead, key, padded);
    }

    /**
     * ReadFile on an open encrypted file: the plaintext bytes from m_pos on, as many as asked for and
     * there are. At the end of the file it fails instead.
     */
    method ReadDecrypted(buf: array<Byte>, nToRead0: nat, ghost key: Key, ghost padded: seq<Byte>)
      returns (ok: bool, nRead: nat)
      requires Open(key, padded) && Buffer(buf) && nToRead0 <= buf.Length && nToRead0 < TWO32
      requires PositionFits() && Available(nToRead0, m_pos, m_file_size) < TWO31
      modifies this`m_cache_pos, this`m_file_pos_cache, this`m_pos, m_file`pos, m_block_cache, buf
      ensures Open(key, padded) && m_pos == old(m_pos) + nRead
      ensures ReadsPlain(old(buf[..]), buf[..], padded, old(m_pos), m_file_size, nToRead0, nRead, ok)
    {
      hide Attached, CacheOk, Splice;
      ClampExact(nToRead0, m_pos, m_file_size);
      var nToRead := Clamp(nToRead0, m_pos, m_file_size);
      if nToRead <= 0 || m_pos < 0 {
        PutNothing(buf[..], padded, m_pos);
        return false, 0;
      }
      ReadParts(buf, nToRead, key, padded);
      return true, nToRead;
    }

    method ReadParts(buf: array<Byte>, nToRead0: nat, ghost key: Key, ghost padded: seq<Byte>)
      requires Open(key, padded) && Buffer(buf) && 0 < nToRead0 <= buf.Length && m_pos + nToRead0 <= m_file_size
      modifies this`m_cache_pos, this`m_file_pos_cache, this`m_pos, m_file`pos, m_block_cache, buf
      ensures Open(key, padded) && m_pos == old(m_pos) + nToRead0
      ensures buf[..] == Put(old(buf[..]), 0, padded, old(m_pos), nToRead0)
    {
      hide Attached, CacheOk, Splice, Put, Buffer;
      var nToRead, got := nToRead0, 0;
      PutNothing(buf[..], padded, m_pos);
      ghost var was, pos := buf[..], m_pos;
      if m_pos % m_block_size != 0 {
        got := ReadHead(buf, nToRead, key, padded);
        nToRead := nToRead - got;
      }
      if nToRead > m_block_size {
        var byte_read := ReadMain(buf, got, nToRead, key, padded);
        PutPut(was, padded, pos, got, byte_read);
        nToRead := nToRead - byte_read;
        got := got + byte_read;
      }
      if nToRead > 0 {
        ReadTail(buf, got, nToRead, key, padded);
        PutPut(was, padded, pos, got, nToRead);
      }
    }

    /** ReadFile: the plain OS read unless the file is encrypted and the key fits. What it returns is below 2^31. */
    method ReadFile(buf: array<Byte>, nToRead: nat, ghost key: Key, ghost padded: seq<Byte>)
      returns (ok: bool, nRead: nat)
      requires m_is_encrypted && m_key_ok ==>
        Open(key, padded) && PositionFits() && Available(nToRead, m_pos, m_file_size) < TWO31
      requires Buffer(buf) && nToRead <= buf.Length && nToRead < TWO32
      modifies this`m_cache_pos, this`m_file_pos_cache, this`m_pos, m_file`pos, m_block_cache, buf
      ensures m_is_encrypted && m_key_ok ==> Open(key, padded) && m_pos == old(m_pos) + nRead
      ensures !(m_is_encrypted && m_key_ok) ==> m_file.pos == old(m_file.pos) + nRead
      ensures if m_is_encrypted && m_key_ok
        then ReadsPlain(old(buf[..]), buf[..], padded, old(m_pos), m_file_size, nToRead, nRead, ok)
        else ReadsThrough(old(buf[..]), buf[..], old(m_file.Ahead(nToRead)), nRead, ok)
    {
      hide Attached, ReadsPlain, Splice, Positions, CacheOk;
      if !m_is_encrypted || !m_key_ok {
        nRead := m_file.Read(buf, 0, nToRead);
        return true, nRead;
      }
      ok, nRead := ReadDecrypted(buf, nToRead, key, padded);
    }

    /** GetFileSizeEx */
    method GetFileSize() returns (size: int)
      ensures size == if m_is_encrypted && m_key_ok then m_file_size else |m_file.data|
    {
      if !m_is_encrypted || !m_key_ok {
        return |m_file.data|;
      }
      return m_file_size;
    }

    /**
     * SetFilePointerEx: that of the OS unless the file is encrypted and the key fits. Then a distance from the
     * end is ignored.
     */
    method SetFilePointer(distance: int, move: Move) returns (ok: bool, position: int)
      modifies `m_pos, m_file`pos
      ensures m_is_encrypted && m_key_ok ==>
        && ok == (ReaderTarget(distance, move, old(m_pos), m_file_size) >= 0)
        && m_pos == (if ok then ReaderTarget(distance, move, old(m_pos), m_file_size) else old(m_pos))
        && m_file.pos == old(m_file.pos) && (ok ==> position == m_pos)
      ensures !(m_is_encrypted && m_key_ok) ==>
        && ok == (SeekTarget(distance, move, old(m_file.pos), |m_file.data|) >= 0)
        && m_file.pos == (if ok then SeekTarget(distance, move, old(m_file.pos), |m_file.data|) else old(m_file.pos))
        && m_pos == old(m_pos) && position == m_file.pos
    {
      if !m_is_encrypted || !m_key_ok {
        ok := m_file.Seek(distance, move);
        return ok, m_file.pos;
      }
      var old_pos := m_pos;
      match move {
        case SeekSet => m_pos := distance;
        case SeekCur => m_pos := m_pos + distance;
        case SeekEnd => m_pos := m_file_size;
      }
      if m_pos < 0 {
        m_pos := old_pos;
        return false, m_pos;
      }
      return true, m_pos;
    }

    /** set_key: the key fits when it encrypts the first half of the hint to the second. The hint ends as it was. */
    method SetKey(key: array<Byte>)
      requires key.Length == 32 && key !in m_codec.tabs.Repr() && m_keyhint !in m_codec.tabs.Repr()
        && m_keyhint.Length == 32
      requires m_codec.Allocated() && (m_codec.tabs.tab_gen ==> m_codec.tabs.Ready()) && key != m_keyhint
      modifies `m_key_ok, m_keyhint, m_codec`k_len, m_codec.e_key, m_codec.d_key, m_codec.tabs.Repr()
      ensures m_keyhint[..] == old(m_keyhint[..]) && key[..] == old(key[..])
      ensures m_codec.Keyed(key[..])
      ensures m_key_ok == (Encrypted(key[..], m_keyhint[..16]) == m_keyhint[16..])
    {
      hide AESCryptor.Keyed, Tables.Ready, Encrypted, Decrypted, Splice;
      m_codec.SetKey(key, 256);
      assert key[..32] == key[..];
      CheckHint(key[..]);
    }

    method CheckHint(ghost key: Key)
      requires m_codec.Keyed(key) && m_keyhint !in m_codec.tabs.Repr() && m_keyhint.Length == 32
      modifies `m_key_ok, m_keyhint
      ensures m_codec.Keyed(key)
      ensures m_keyhint[..] == old(m_keyhint[..])
      ensures m_key_ok == (Encrypted(key, m_keyhint[..16]) == m_keyhint[16..])
    {
      hide AESCryptor.Keyed, Encrypted, Decrypted;
      ghost var hint := m_keyhint[..];
      assert m_keyhint[0..16] == hint[..16];
      m_codec.Encrypt(m_keyhint, 0, m_keyhint, 0, key);
      assert m_keyhint[0..16] == Encrypted(key, hint[..16]) && m_keyhint[16..] == hint[16..];
      m_key_ok := m_keyhint[..16] == m_keyhint[16..];
      m_codec.Decrypt(m_keyhint, 0, m_keyhint, 0, key);
      DecryptedEncrypted(key, hint[..16]);
    }

    ghost function Header(): Fields
      reads this, m_keyhint
    {
      Fields(m_file_size, m_block_size, m_keyhint[..], m_layout, m_hash, m_remux_sig)
    }

    /**
     * SetFile: recognise the container and read its header, or leave the file where it was. The walk over the
     * leaves need not end; over says whether it does in its first turn and this many further ones.
     */
    method SetFile(file: OsFile, turns: nat) returns (over: bool)
      requires m_keyhint.Length == 32
      modifies this, m_keyhint, file`pos
      ensures m_file == file && m_key_ok == old(m_key_ok)
      ensures over == Over(file.data, old(file.pos), turns)
      ensures over ==>
        var parsed := ParseFile(file.data, old(file.pos), old(Header()).(remux := Zeros(128), hash := Zeros(20)),
          turns);
        && m_is_encrypted == parsed.Done?
        && (m_is_encrypted ==>
              && Header() == parsed.f && file.pos == parsed.next
              && HasRoot(file.data, old(file.pos))
              && m_start_in_file == m_file_pos_cache == RootSize(file.data, old(file.pos)) + 16
              && m_cache_pos == -1 && m_pos == 0
              && (m_block_size > 0 ==>
                    m_block_cache != null && fresh(m_block_cache) && m_block_cache.Length == m_block_size))
        && (!m_is_encrypted ==> file.pos == old(file.pos) && m_block_cache == old(m_block_cache))
    {
      hide Tag, Parse, Over, Int64Of, Zeros, HasRoot, ParseFile;
      m_remux_sig := Zeros(128);
      m_file := file;
      m_is_encrypted := false;
      m_hash := Zeros(20);
      var start := file.pos;
      var found;
      over, found := FindHeader(turns);
      if !over {
        return;
      }
      if !found {
        file.SeekTo(start);
        return;
      }
      m_file_pos_cache := m_start_in_file;
      m_is_encrypted := true;
      m_cache_pos := -1;
      m_pos := 0;
      if m_block_size > 0 {
        m_block_cache := new Byte[m_block_size](_ => ZERO);
      }
    }

    method FindHeader(turns: nat) returns (over: bool, found: bool)
      requires m_keyhint.Length == 32
      modifies `m_start_in_file, `m_file_size, `m_block_size, `m_layout, `m_hash, `m_remux_sig, m_keyhint, m_file`pos
      ensures over == Over(m_file.data, old(m_file.pos), turns)
      ensures over ==>
        var parsed := ParseFile(m_file.data, old(m_file.pos), old(Header()), turns);
        && found == parsed.Done?
        && (found ==> HasRoot(m_file.data, old(m_file.pos)) && Header() == parsed.f && m_file.pos == parsed.next
                      && m_start_in_file == RootSize(m_file.data, old(m_file.pos)) + 16)
    {
      hide Tag, Parse, EndsWithin, Int64Of;
      over, found := ReadHeader(turns);
      found := found && m_file_size != 0 && m_block_size != 0;
    }

    method ReadHeader(turns: nat) returns (over: bool, found: bool)
      requires m_keyhint.Length == 32
      modifies `m_start_in_file, `m_file_size, `m_block_size, `m_layout, `m_hash, `m_remux_sig, m_keyhint, m_file`pos
      ensures over == Over(m_file.data, old(m_file.pos), turns)
      ensures !HasRoot(m_file.data, old(m_file.pos)) ==> !found
      ensures over && HasRoot(m_file.data, old(m_file.pos)) ==>
        var root := RootSize(m_file.data, old(m_file.pos));
        var parsed := Parse(m_file.data, old(m_file.pos) + 16, root, old(Header()), turns);
        && found == parsed.Done?
        && (found ==> Header() == parsed.f && m_file.pos == parsed.next && m_start_in_file == root + 16)
    {
      hide Tag, Parse, EndsWithin, Int64Of;
      ghost var data, p, f0 := m_file.data, m_file.pos, Header();
      var eightcc := m_file.Take(8);
      if |eightcc| != 8 || eightcc != Tag("my12doom") {
        return true, false;
      }
      var root := m_file.Take(8);
      if |root| != 8 {
        return true, false;
      }
      m_start_in_file := Int64Of(root) + 16;
      over, found := ReadLeaves(Int64Of(root), turns);
    }

    /**
     * do { read one leaf } while (total_byte_read < root_size); where the loop is not over after this many
     * further turns, it stands where the walk stands then.
     */
    method ReadLeaves(root_size: int, turns: nat) returns (over: bool, found: bool)
      requires m_keyhint.Length == 32
      modifies `m_file_size, `m_block_size, `m_layout, `m_hash, `m_remux_sig, m_keyhint, m_file`pos
      ensures over == EndsWithin(m_file.data, old(m_file.pos), root_size, turns)
      ensures over ==>
        var parsed := Parse(m_file.data, old(m_file.pos), root_size, old(Header()), turns);
        && found == parsed.Done?
        && (found ==> Header() == parsed.f && m_file.pos == parsed.next)
      ensures !over ==>
        var start := Spot(old(m_file.pos), root_size);
        Goes(m_file.data, start, turns + 1) && m_file.pos == After(m_file.data, start, turns + 1).p
    {
      hide Tag, Int64Of, SetField, FieldLength, EndsWithin, Parse, NextLeaf, Goes, After;
      ghost var data, start, f := m_file.data, Spot(m_file.pos, root_size), Header();
      NoTurn(data, start);
      found := false;
      var total_byte_read := 0;
      var left: nat := turns;
      while true
        invariant m_keyhint.Length == 32 && left <= turns
        invariant Goes(data, start, turns - left)
        invariant Spot(m_file.pos, root_size - total_byte_read) == After(data, start, turns - left)
        invariant EndsWithin(data, start.p, root_size, turns)
              <==> EndsWithin(data, m_file.pos, root_size - total_byte_read, left)
        invariant EndsWithin(data, start.p, root_size, turns) ==>
          Parse(data, m_file.pos, root_size - total_byte_read, Header(), left)
            == Parse(data, start.p, root_size, f, turns)
        decreases left
      {
        ParseOne(data, m_file.pos, root_size - total_byte_read, Header(), left);
        OneTurnMore(data, start, turns - left);
        var ok, leaf_size := ReadLeaf();
        if !ok {
          return true, false;
        }
        total_byte_read := total_byte_read + 16 + leaf_size;
        if total_byte_read >= root_size {
          return true, true;
        }
        if left == 0 {
          return false, false;
        }
        left := left - 1;
      }
    }

    /** The body of the loop: a leaf, and on to the next; a short read fails. */
    method ReadLeaf() returns (ok: bool, leaf_size: int)
      requires m_keyhint.Length == 32
      modifies `m_file_size, `m_block_size, `m_layout, `m_hash, `m_remux_sig, m_keyhint, m_file`pos
      ensures var data, p := m_file.data, old(m_file.pos);
        if p + 16 > |data| || p + 16 + FieldLength(data[p..p + 8]) > |data| then !ok else
        var cc, n := data[p..p + 8], FieldLength(data[p..p + 8]);
        && ok && leaf_size == Int64Of(data[p + 8..p + 16]) && m_file.pos == NextLeaf(p, leaf_size, n)
        && Header() == SetField(old(Header()), cc, data[p + 16..p + 16 + n])
    {
      hide Tag, Int64Of, SetField, FieldLength;
      var eightcc := m_file.Take(8);
      if |eightcc| != 8 {
        return false, 0;
      }
      var size := m_file.Take(8);
      if |size| != 8 {
        return false, 0;
      }
      leaf_size := Int64Of(size);
      var n := ReadField(eightcc);
      if n < 0 {
        return false, leaf_size;
      }
      m_file.SeekBy(Long(leaf_size - n));
      return true, leaf_size;
    }

    /** The field a leaf of this tag sets; -1 for a short read, otherwise the bytes read. */
    method ReadField(eightcc: seq<Byte>) returns (byte_read: int)
      requires m_keyhint.Length == 32 && |eightcc| == 8 && m_file.pos <= |m_file.data|
      modifies `m_file_size, `m_block_size, `m_layout, `m_hash, `m_remux_sig, m_keyhint, m_file`pos
      ensures var n := FieldLength(eightcc);
        if old(m_file.pos) + n > |m_file.data| then byte_read == -1
        else byte_read == n && m_file.pos == old(m_file.pos) + n
             && Header() == SetField(old(Header()), eightcc, m_file.data[old(m_file.pos)..old(m_file.pos) + n])
    {
      hide Tag, Int64Of, Int32Of;
      byte_read := 0;
      if eightcc == Tag("filesize") {
        var d := m_file.Take(8);
        if |d| != 8 { return -1; }
        m_file_size := Int64Of(d);
        return 8;
      } else if eightcc == Tag("blocksize") {
        var d := m_file.Take(8);
        if |d| != 8 { return -1; }
        m_block_size := Int32Of(d);
        return 8;
      } else if eightcc == Tag("keyhint") {
        var d := m_file.Take(32);
        if |d| != 32 { return -1; }
        forall i | 0 <= i < 32 { m_keyhint[i] := d[i]; }
        assert m_keyhint[..] == d;
        return 32;
      } else if eightcc == Tag("layout") {
        var d := m_file.Take(8);
        if |d| != 8 { return -1; }
        m_layout := Int64Of(d);
        return 8;
      } else if eightcc == Tag("srchash") {
        var d := m_file.Take(20);
        if |d| != 20 { return -1; }
        m_hash := d;
        return 20;
      } else if eightcc == Tag("remux") {
        var d := m_file.Take(128);
        if |d| != 128 { return -1; }
        m_remux_sig := d;
        return 128;
      }
    }
  }

  /** Where the reader moves to: the distance counts from the start and from the position, but not from the end. */
  function ReaderTarget(distance: int, move: Move, pos: int, size: int): int {
    match move
    case SeekSet => distance
    case SeekCur => pos + distance
    case SeekEnd => size
  }

  // ----- How much a read returns -----

  /** min(nToRead, m_file_size - m_pos), computed on __int64 and truncated to a DWORD. */
  function Clamp(nToRead: nat, pos: nat, size: nat): nat {
    var m: int := if nToRead < size - pos then nToRead else size - pos;
    m % TWO32
  }

  /** The bytes a read of n at pos should return. */
  function Available(n: nat, pos: nat, size: nat): nat {
    if pos >= size then 0 else if n < size - pos then n else size - pos
  }

  /** The position is in the file or at its end, or so far past it that the truncation gives zero. */
  predicate ClampFits(pos: nat, size: nat) {
    pos <= size || (pos - size) % TWO32 == 0
  }

  /** A read of n at pos: buf becomes buf' with the plaintext that is there, or the read fails at the end. */
  ghost predicate ReadsPlain(buf: seq<Byte>, buf': seq<Byte>, padded: seq<Byte>, pos: int, size: int, n: nat,
                             nRead: nat,
                             ok: bool) {
    && pos >= 0 && size >= 0
    && nRead == Available(n, pos, size) && ok == (nRead > 0)
    && buf' == Put(buf, 0, padded, pos, nRead)
  }

  /** A read of the file itself. */
  ghost predicate ReadsThrough(buf: seq<Byte>, buf': seq<Byte>, ahead: seq<Byte>, nRead: nat, ok: bool) {
    ok && nRead == |ahead| <= |buf| && buf' == Splice(buf, 0, ahead)
  }

  lemma ModNegated(d: int)
    ensures (-d) % TWO32 == 0 <==> d % TWO32 == 0
  {
    assert d == TWO32 * (d / TWO32) + d % TWO32;
    assert -d == TWO32 * ((-d) / TWO32) + (-d) % TWO32;
  }

  /** The clamp gives what should be read exactly for the positions of ClampFits. */
  lemma ClampExact(n: nat, pos: nat, size: nat)
    requires n < TWO32
    ensures Clamp(n, pos, size) == Available(n, pos, size) <==> ClampFits(pos, size)
  {
    if pos > size {
      ModNegated(pos - size);
    }
  }

  /** One byte past the end of the file, a read of one byte is taken for a read of almost 4 GB. */
  lemma ClampFailsPastTheEnd()
    ensures Clamp(1, 17, 16) == TWO32 - 1 && Available(1, 17, 16) == 0
  {}

  lemma PutNothing(buf: seq<Byte>, padded: seq<Byte>, pos: int)
    requires 0 <= pos
    ensures Put(buf, 0, padded, pos, 0) == buf
  {}

  /** buf with n bytes of the plaintext, from position pos on, put at offset o. */
  ghost function Put(buf: seq<Byte>, o: nat, padded: seq<Byte>, pos: int, n: nat): seq<Byte> {
    if o + n <= |buf| && 0 <= pos && pos + n <= |padded| then Splice(buf, o, padded[pos..pos + n]) else buf
  }

  lemma PutIsSplice(buf: seq<Byte>, o: nat, padded: seq<Byte>, pos: nat, n: nat)
    requires o + n <= |buf| && pos + n <= |padded|
    ensures Put(buf, o, padded, pos, n) == Splice(buf, o, padded[pos..pos + n])
  {}

  lemma PutPut(buf: seq<Byte>, padded: seq<Byte>, pos: nat, n: nat, m: nat)
    requires n + m <= |buf| && pos + n + m <= |padded|
    ensures Put(Put(buf, 0, padded, pos, n), n, padded, pos + n, m) == Put(buf, 0, padded, pos, n + m)
  {
    hide Splice;
    SpliceSplice(buf, 0, padded[pos..pos + n], padded[pos + n..pos + n + m]);
    assert padded[pos..pos + n] + padded[pos + n..pos + n + m] == padded[pos..pos + n + m];
  }

  /** memcpy between different buffers */
  method CopyTo(src: array<Byte>, from: nat, n: nat, dst: array<Byte>, o: nat)
    requires src != dst && from + n <= src.Length && o + n <= dst.Length
    modifies dst
    ensures dst[..] == Splice(old(dst[..]), o, src[from..from + n])
  {
    forall i | 0 <= i < n {
      dst[o + i] := src[from + i];
    }
  }

  lemma WholePut(a: seq<Byte>, padded: seq<Byte>, pos: nat)
    requires pos + |a| <= |padded|
    ensures Put(a, 0, padded, pos, |a|) == padded[pos..pos + |a|]
  {}

  /** From start on, the file holds the encryption of padded. */
  ghost predicate BodyAt(key: Key, padded: seq<Byte>, data: seq<Byte>, start: nat) {
    && |padded| % 16 == 0
    && start + |padded| <= |data|
    && data[start..start + |padded|] == Encode(key, padded)
  }

  lemma BodyBounds(key: Key, padded: seq<Byte>, data: seq<Byte>, start: nat)
    requires BodyAt(key, padded, data, start)
    ensures start + |padded| <= |data|
  {}

  /** What lies in the file at a whole number of blocks decrypts to the same place in the plaintext. */
  lemma FetchedBlocks(key: Key, padded: seq<Byte>, at: nat, n: nat, data: seq<Byte>, start: nat, raw: seq<Byte>)
    requires at % 16 == 0 && n % 16 == 0 && at + n <= |padded|
    requires BodyAt(key, padded, data, start) && raw == data[start + at..start + at + n]
    ensures |raw| % 16 == 0 && Decode(key, raw) == padded[at..at + n]
  {
    hide Encode, Decode;
    EncodeSlice(key, padded, padded[at..at + n], at, n);
    DecodeEncode(key, padded[at..at + n]);
    SliceOfSlice(data, start, |padded|, at, n);
  }

  lemma SliceOfSlice(data: seq<Byte>, start: nat, len: nat, at: nat, n: nat)
    requires start + len <= |data| && at + n <= len
    ensures data[start..start + len][at..at + n] == data[start + at..start + at + n]
  {
    var whole := data[start..start + len];
    var x := whole[at..at + n];
    var y := data[start + at..start + at + n];
    assert |x| == |y|;
    forall k | 0 <= k < |x| ensures x[k] == y[k] {
    }
  }

  lemma SplicedPart(a: seq<Byte>, o: nat, x: seq<Byte>)
    requires o + |x| <= |a|
    ensures Splice(a, o, x)[o..o + |x|] == x
  {}

  lemma SpliceOver(a: seq<Byte>, o: nat, x: seq<Byte>, y: seq<Byte>)
    requires o + |x| <= |a| && |x| == |y|
    ensures Splice(Splice(a, o, x), o, y) == Splice(a, o, y)
  {}
}
