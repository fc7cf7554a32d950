# A verified model of the video tools

The repository is a collection of video tools. This project models the parts of it that carry real
invariants, and proves them in Dafny. `dafny verify dfyconfig.toml` checks everything.

**The E3D container** (`AESFile/`). A table-driven AES, a tagged-leaf header, an encrypting writer and a
random-access decrypting reader with a one-block cache and a shadow of the OS file position.

- `Gf256`, `Generator`, `Words`: the field GF(2^8) with multiplication by the schoolbook rule, 3 as a generator
  of its units (which is what log and power tables need), words of four bytes.
- `Fips197`: the cipher, the inverse cipher, the equivalent inverse cipher and the key expansion of FIPS 197,
  written from the standard and independent of the tables; decryption undoes encryption, and the equivalent
  inverse cipher is the inverse cipher.
- `Rijndael`, `Cryptor`: the tables, the key schedule and the rounds as the program computes them, proved to be
  what `Fips197` says.
- `AesOnBits`, `AesVectors`: the cipher on the numbers that FIPS 197 prints. Its whole S-box (`Figure7`), the first
  expanded words of the keys in appendices A.1 to A.3, and the block, key schedule and rounds of appendix C.3
  (`EncryptedC3`) come out as printed.
- `Ecb`, `Files`, `E3DWriter`, `Blocks`, `LeafWalk`, `E3DReader`, `E3DContainer`: buffers, files, writer and reader.
  The main result is `E3DContainer.EncodeAndUse`: what `encode_file` writes, `file_reader` opens, and a session of seeks and
  reads on it is answered as the plaintext file would answer it, for exactly the sessions described next. The
  reference is an OS file (`Files.OsFile`, `E3DContainer.FileCall`).

Tags, texts, the header and the hint are also given byte by byte (`Files.Tags`, `E3DContainer.HeaderBytes`,
`E3DContainer.HintBytes`, `LeafWalk.KnownByItsBytes`), so that writer and reader do not only agree with each other.

The law that the reader looks like the plaintext file has exceptions, and each has its exact condition.

- A read at the end of the file, or of nothing, fails, where a file returns nothing and succeeds; and a seek from the
  end ignores the distance. In all other calls reader and file agree, in these they never do (`StepAlike`), and a
  session is answered alike exactly if it has none of these calls (`RepliesAlike`, `Session`).
  `ReadAtTheEndDiffers` and `SeekFromTheEndDiffers` give an input for each.
- An empty plaintext: its header has file size 0, `SetFile` refuses it, and the reader is the container file itself
  (`EncodeAndUse` states both sides).
- A read that starts past the end of the file is clamped to a negative count that is then truncated to 32 bits.
  `E3DReader.ClampExact` says for which positions the count is right, `E3DReader.ClampFailsPastTheEnd` gives one for
  which it is almost 4 GB; sessions are those whose reads start at the former.
- The walk over the leaves of a header does not end on every file. It ends exactly if it never meets a leaf again with no
  less left to go (`LeafWalk.WalkEnds`, and `LeafWalk.OpeningEnds` for the whole of opening a file);
  `LeafWalk.HangingFileHangs` gives a file of 32 bytes on which it goes round for ever.

**The EVR presenter** (`EVRPresenter/`).

- `ComPtrList`: the circular doubly linked list on the heap, with reference counts. Every run of operations does to
  it what it does to a sequence, and each item has one reference per occurrence.
- `Media`: samples and result codes.
- `Scheduler`: the scheduler thread with its nested loops, and a scheduling point before every step that other
  threads can see, where a script decides what they do. What they can see is a run of a state machine, one state for
  each event of the script (`Observe`), and every state of it satisfies conservation and order of samples, no lost
  wakeup, completed flushes, punctuality by stamp and clock, and an explained exit. `PresentedWhenDue` says when a
  sample is presented, `WakesInTime` what the sleep leaves of the lead, and `DueIsPresented` that a due sample goes out.
- `FlushEvent`: the event by which `Flush` waits for the thread. The signal on which a call returns means that all
  that was queued before is done with exactly when no earlier signal is about (`SignalMeansDone`). That is so while
  calls come one at a time and none gives up (`OneAtATime`), but not after a timeout (`AfterATimeout`).
- `FrameStep`, `SamplePools`, `Presenter`: the presenter's entries as methods on its fields. Every run of entries goes
  from state to state as the entries say, and in each the pool accounts for its samples (`EVRCustomPresenter.Run`);
  over any run of step requests, frames, repaints and returned samples, frame stepping discards, shows and queues
  exactly the frames it should for the number of steps requested, also when requests come late
  (`EVRCustomPresenter.StepThrough`). Without requests it shows every frame (`EVRCustomPresenter.PlayThrough`), and a
  step that waits for the clock ends up the same (`FrameStep.WaitingExact`).

Where the presenter's comments and code differ, the model follows the code: `bProcessSamples` in the scheduler's
message loop is set but never changes anything, since it is declared inside the loop; an `InitServicePointers`
whose mixer cannot be configured returns success and leaves the state as it was; a step requested while the clock is
paused goes on waiting when the clock then starts at a new position, since only a start from the stopped state
begins it.

**Smaller parts.**

- `Clips`: `PClip` and `AVSValue` handles over filter graphs (`AvsSlideShow/avisynth.h`). After every program exactly
  those clips exist that the variables reach, directly or through a chain of filters, or that have never been in a
  handle (`Program.Run`).
- `FrameRate`: `SetFPS` and `MulDivFPS` (same file), for all arguments. Past 62 bits the shift count wraps around
  modulo 32; `ShiftBelow32` says exactly when it does not, and `WrapsPast62Bits` gives a call for which it does, with
  the rate that it leaves.
- `Demuxer`: the recursive 3dv box parser. On every byte string its payloads are nested or disjoint and its calls
  bounded; on a file of well-formed boxes it reports exactly those boxes.
- `YuvToRgb`: the 4:2:0 to RGB converter with its tables, whose colours are those of ITU-R BT.601 (`NearBt601`).
- `Thumbnails`: client and server of the thumbnail pipe, side by side. A script decides how far the server goes at
  each of the client's reads and writes; whatever it says, a run of the client has the results of plain calls, and
  the two are in lock step (`RemoteThumbnail.Run`). `AnswersTell` says what those results are.
- `StreamSeek`: frame times and keyframe search. When the target lies before the first keyframe, the search lands on
  the last one; `ScanFinds` states both directions.

Conventions. Bytes of the cipher are `Byte(v: bv8)`, words are four bytes, and rotations of words are given by
bytes, with lemmas that they are the 32-bit rotations. Elsewhere bytes are numbers below 256. Integers are unbounded
except where a width matters, and there it is written out. The outside world (files, mixer, device, clock,
pipes, other threads) enters as parameters and scripts, over all values of which the results hold.

## Model

| member | source | states |
|---|---|---|
| `Gf256.MulTimes3` | AESFile/RIJNDAEL.CPP:265 | multiplying by the successor of x in the power table is multiplying by x and then by 3, for the schoolbook product |
| `Gf256.MulBy2And3` | AESFile/RIJNDAEL.CPP:298-301 | products with 2 and 3 through doublings |
| `Gf256.MulBy9And11` | AESFile/RIJNDAEL.CPP:317-320 | products with 9 and 11 through doublings |
| `Gf256.MulBy13And14` | AESFile/RIJNDAEL.CPP:317-320 | products with 13 and 14 through doublings |
| `Generator.OrderOf3` | AESFile/RIJNDAEL.CPP:257-266 | 3 has order exactly 255: no smaller positive power is 1, so the power table meets every nonzero byte |
| `Generator.LogPow3` | AESFile/RIJNDAEL.CPP:263-268 | the logarithm inverts the power, for every exponent below 255 |
| `Generator.MulByLogs` | AESFile/RIJNDAEL.CPP:197 | the product of nonzero bytes is the power of the sum of their logarithms modulo 255 |
| `Generator.InverseCorrect` | AESFile/RIJNDAEL.CPP:279 | the inverse read off the logarithm is the only byte whose product with x is 1 |
| `Generator.SBoxInverse` | AESFile/RIJNDAEL.CPP:277-285 | the S-box is a permutation: the inverse box undoes it and is undone by it |
| `Words.OfToBits` | AESFile/RIJNDAEL.CPP:83-86 | four bytes and the 32-bit number they make are the same thing, in both directions |
| `Words.XorIsBitwise` | AESFile/RIJNDAEL.CPP:199-203 | xor byte by byte is xor of the 32-bit numbers |
| `Words.RotL8IsRotation` | AESFile/RIJNDAEL.CPP:68 | moving bytes round a word is the 32-bit rotation by 8 |
| `Words.RotL16IsRotation` | AESFile/RIJNDAEL.CPP:68 | likewise by 16 |
| `Words.RotL24IsRotation` | AESFile/RIJNDAEL.CPP:68 | likewise by 24 |
| `Words.StarXDoublesEachByte` | AESFile/RIJNDAEL.CPP:331 | star_x on a 32-bit word doubles each of its four bytes in the field |
| `Fips197.InvMixColumnOfMixColumn` | AESFile/RIJNDAEL.CPP:317-325 | the inverse column transform undoes the column transform, for every column |
| `Fips197.InvMixColumnXor` | AESFile/RIJNDAEL.CPP:331-341 | the inverse column transform is linear |
| `Fips197.InvCipherOfCipher` | AESFile/RIJNDAEL.CPP:495-523 | the inverse cipher undoes the cipher, for every key schedule and number of rounds (sections 5.1 and 5.3 of FIPS 197) |
| `Fips197.EqInvCipherAgrees` | AESFile/RIJNDAEL.CPP:429-432 | with the transformed schedule the equivalent inverse cipher is the inverse cipher (section 5.3.5 of FIPS 197) |
| `Rijndael.Tables.GenPowers` | AESFile/RIJNDAEL.CPP:261-268 | the power and log tables hold the powers of 3 and their logarithms, the entries for 1 and 255 included |
| `Rijndael.Tables.GenRcon` | AESFile/RIJNDAEL.CPP:270-275 | the round constants are those of the key expansion |
| `Rijndael.Tables.GenSBox` | AESFile/RIJNDAEL.CPP:277-285 | sbx_tab is the S-box of section 5.1.1 of FIPS 197, by inversion and the affine map, and isb_tab its inverse |
| `Rijndael.Tables.FfMult` | AESFile/RIJNDAEL.CPP:197 | the table product is the field product, zero included |
| `Rijndael.Tables.GenRounds` | AESFile/RIJNDAEL.CPP:287-326 | the sixteen round tables hold the transformed columns of each byte, rotated into place |
| `Rijndael.Tables.GenTabs` | AESFile/RIJNDAEL.CPP:253-329 | after gen_tabs every table is right |
| `Cryptor.ImixColIsInvMixColumn` | AESFile/RIJNDAEL.CPP:333-341 | imix_col computes the inverse column transform, for every word |
| `Cryptor.AESCryptor.LsBox` | AESFile/RIJNDAEL.CPP:213-217 | ls_box substitutes each byte of a word |
| `Cryptor.AESCryptor.FRn` | AESFile/RIJNDAEL.CPP:199-203 | one table look-up round word is a column of SubBytes, ShiftRows, MixColumns and AddRoundKey |
| `Cryptor.AESCryptor.FRl` | AESFile/RIJNDAEL.CPP:219-223 | the last round leaves out MixColumns |
| `Cryptor.AESCryptor.IRn` | AESFile/RIJNDAEL.CPP:205-209 | one word of an inverse round, in the order of the equivalent inverse cipher |
| `Cryptor.AESCryptor.IRl` | AESFile/RIJNDAEL.CPP:225-229 | the last inverse round |
| `Cryptor.AESCryptor.Loop4` | AESFile/RIJNDAEL.CPP:352-358 | four words of the 128-bit schedule, by the key expansion of section 5.2 of FIPS 197, all indices in range |
| `Cryptor.AESCryptor.Loop6` | AESFile/RIJNDAEL.CPP:360-368 | six words of the 192-bit schedule, by the key expansion of section 5.2 of FIPS 197, with every index inside the array |
| `Cryptor.AESCryptor.Loop8` | AESFile/RIJNDAEL.CPP:370-381 | eight words of the 256-bit schedule, with the extra substitution in the middle |
| `Cryptor.AESCryptor.SetDecryptionKey` | AESFile/RIJNDAEL.CPP:426-432 | the decryption schedule is the transformed encryption schedule between its ends |
| `Cryptor.AESCryptor.SetKey` | AESFile/RIJNDAEL.CPP:393-435 | for a 128-, 192- or 256-bit key both schedules belong to the key, and the tables exist |
| `Cryptor.AESCryptor.FNround` | AESFile/RIJNDAEL.CPP:439-444 | four words make one round on the state |
| `Cryptor.AESCryptor.INround` | AESFile/RIJNDAEL.CPP:482-487 | four words make one inverse round |
| `Cryptor.AESCryptor.Encrypt` | AESFile/RIJNDAEL.CPP:452-478 | out_blk becomes the FIPS 197 cipher of what in_blk was, also in place and at any offset, and nothing else in the buffer changes |
| `Cryptor.AESCryptor.Decrypt` | AESFile/RIJNDAEL.CPP:495-523 | out_blk is the FIPS 197 inverse cipher of in_blk, also in place and at any offset |
| `Cryptor.DecryptedEncrypted` | AESFile/RIJNDAEL.CPP:452-523 | decryption undoes encryption for every key of the three sizes and every block |
| `AesOnBits.Figure7` | AESFile/RIJNDAEL.CPP:277-285 | the S-box is the table printed in figure 7 of FIPS 197, all 256 numbers |
| `AesOnBits.RotWordIsRotation` | AESFile/RIJNDAEL.CPP:352-371 | RotWord of the key expansion is the 32-bit rotation by 8 to the right of the program's words |
| `AesOnBits.RotWordOnBits` | AESFile/RIJNDAEL.CPP:352-371 | and by 8 to the left of the words as FIPS 197 prints them |
| `AesOnBits.RoundOnBits` | AESFile/RIJNDAEL.CPP:439-444 | a round on the printed numbers, with ShiftRows and MixColumns as masks, doublings and sums of bits |
| `AesVectors.FirstA1` | AESFile/RIJNDAEL.CPP:352-358 | for the 128-bit key of appendix A.1 of FIPS 197 the first expanded words are those printed there |
| `AesVectors.FirstA2` | AESFile/RIJNDAEL.CPP:360-368 | likewise the 192-bit key of appendix A.2 |
| `AesVectors.FirstA3` | AESFile/RIJNDAEL.CPP:370-381 | likewise the 256-bit key of appendix A.3, with the extra substitution in the middle |
| `AesVectors.RoundKeysC3` | AESFile/RIJNDAEL.CPP:393-419 | all fifteen round keys of appendix C.3 |
| `AesVectors.EncryptedC3` | AESFile/RIJNDAEL.CPP:452-478 | the block of appendix C.3, as literal bytes, encrypts to the printed one under the printed key |
| `Ecb.EncodeConcat` | AESFile/E3DWriter.cpp:240-241 | encoding goes block by block: a concatenation encodes to the concatenation |
| `Ecb.EncodeBlock` | AESFile/E3DWriter.cpp:240-241 | the i-th block of the result is the i-th block encrypted |
| `Ecb.DecodeEncode` | AESFile/E3DReader.cpp:191-192 | decoding a whole number of blocks undoes encoding them |
| `Ecb.EncodeSlice` | AESFile/E3DReader.cpp:205-217 | a run of whole blocks of the encoded file is the encoding of the same run of the plaintext |
| `Ecb.EncryptInPlace` | AESFile/E3DWriter.cpp:240-241 | the loop over 16-byte blocks replaces exactly that part of the buffer by its encoding |
| `Ecb.DecryptInPlace` | AESFile/E3DReader.cpp:216-217 | the loop over 16-byte blocks replaces exactly that part of the buffer by its decoding |
| `Files.Int64RoundTrip` | AESFile/E3DReader.cpp:103-104 | a size written as eight little-endian bytes is read back as the same __int64 |
| `Files.Int32RoundTrip` | AESFile/E3DReader.cpp:113-117 | the first four of the eight bytes of the block size are read back as the int |
| `Files.LeDigit` | AESFile/E3DWriter.cpp:91-106 | the i-th byte of a stored number is its i-th digit to the base 256 |
| `Files.IntsAre` | AESFile/E3DReader.cpp:103-117 | what is read back are the signed numbers of 64 and 32 bits with these low digits, negative ones included |
| `Files.Tags` | AESFile/E3DReader.cpp:22-30 | the tags of the container byte by byte, the magic among them |
| `Files.TagsAgree` | AESFile/E3DReader.cpp:22-30 | names without NUL have the same tag exactly if their first eight characters agree |
| `Files.TextAt` | AESFile/E3DWriter.cpp:205-219 | a text is its characters, one byte each |
| `Files.TagsDiffer` | AESFile/E3DReader.cpp:22-30 | names with different first characters have different tags |
| `E3DWriter.Leaf.ChildSizeIsPayload` | AESFile/E3DWriter.cpp:61-106 | in a finished leaf tree m_child_size is the number of bytes WriteTo puts after its 16-byte header |
| `E3DWriter.Leaf.AddLeaf` | AESFile/E3DWriter.cpp:61-72 | a child is appended behind the others and the sizes stay right; a data leaf takes no child |
| `E3DWriter.Leaf.SetData` | AESFile/E3DWriter.cpp:74-80 | the leaf holds exactly the data |
| `E3DWriter.Leaf.WriteTo` | AESFile/E3DWriter.cpp:91-106 | the file grows by tag, size and content, children in order |
| `E3DWriter.WriteHeader` | AESFile/E3DWriter.cpp:171-224 | the file grows by the header with its six leaves |
| `E3DContainer.HeaderBytes` | AESFile/E3DWriter.cpp:171-224 | the header as literal bytes around its sizes, the hash, the hint and the signature |
| `E3DWriter.MakeHint` | AESFile/E3DWriter.cpp:205-208 | the hint is the text and behind it the encrypted text |
| `E3DContainer.HintBytes` | AESFile/E3DWriter.cpp:205 | the hint text byte by byte |
| `E3DWriter.FullChunk` | AESFile/E3DWriter.cpp:234-242 | after a full chunk the output encodes the plaintext so far |
| `E3DWriter.LastChunk` | AESFile/E3DWriter.cpp:238-245 | a last chunk goes out zero-filled, and completes the encoding of the padded plaintext |
| `E3DWriter.EncodeBody` | AESFile/E3DWriter.cpp:226-251 | the file grows by the encoding of the plaintext, zero-filled to a multiple of the chunk size |
| `E3DWriter.PaddedIs` | AESFile/E3DWriter.cpp:232-245 | the body has as many chunks of 655360 bytes as it takes, and behind the plaintext only zeros |
| `E3DWriter.EncodeFile` | AESFile/E3DWriter.cpp:162-262 | the output is header and body of the container for this plaintext, key and hash |
| `Blocks.BlockStartBounds` | AESFile/E3DReader.cpp:178-180 | the block of a position starts at a multiple of the block size, at or before it, less than a block away |
| `Blocks.BlockFits` | AESFile/E3DReader.cpp:189 | a block that starts inside a whole number of blocks ends inside it |
| `Blocks.MultipleOf16` | AESFile/E3DReader.cpp:191 | blocks of a size that is a multiple of 16 start at multiples of 16 |
| `E3DReader.FetchedBlocks` | AESFile/E3DReader.cpp:182-192 | what lies in the file at a run of whole blocks decodes to the same run of the plaintext |
| `E3DReader.FileReader.constructor` | AESFile/E3DReader.cpp:33-42 | the fields the source sets, with no cache and no key |
| `E3DReader.FileReader.SetKey` | AESFile/E3DReader.cpp:50-69 | the key is accepted exactly when it encrypts the first half of the hint to the second, and the hint ends as it was |
| `E3DReader.FileReader.SetFile` | AESFile/E3DReader.cpp:71-157 | for every file: opening is over exactly when the walk over the leaves is, in the turns watched; then the file is recognised exactly when its header parses with nonzero size and block size, all fields and the body position are set, and otherwise the file is where it was |
| `E3DReader.FileReader.ReadLeaves` | AESFile/E3DReader.cpp:98-142 | the loop over leaves of any sizes, as long as it is watched: it is over exactly when the walk is, with the fields that the parse of the bytes gives, or failure on a short read, and otherwise it stands where the walk stands |
| `LeafWalk.KnownByItsBytes` | AESFile/E3DReader.cpp:85-90 | a container is known by the eight bytes 6d 79 31 32 64 6f 6f 6d and nothing else |
| `LeafWalk.FieldsByTheirBytes` | AESFile/E3DReader.cpp:108-137 | which field each of the six tags sets, from how many bytes, with the tags as literal bytes |
| `LeafWalk.RecognisedWhen` | AESFile/E3DReader.cpp:144-145 | recognised exactly when the header parses and neither size nor block size is zero |
| `LeafWalk.LongIs` | AESFile/E3DReader.cpp:139 | the jump over a leaf is the size cut to 32 bits with a sign |
| `LeafWalk.WalkEnds` | AESFile/E3DReader.cpp:98-142 | the walk over the leaves ends exactly when no leaf is met again with no less left to go, for every file, position and size of the root |
| `LeafWalk.OpeningEnds` | AESFile/E3DReader.cpp:71-157 | opening ends exactly when there is no header, or one in which no leaf is met again like that |
| `LeafWalk.HangingFileHangs` | AESFile/E3DReader.cpp:98-142 | a file of 32 bytes whose opening is not over after any number of turns |
| `LeafWalk.ForwardEnds` | AESFile/E3DReader.cpp:98-142 | a simple sufficient condition: no leaf size is negative or above 31 bits |
| `LeafWalk.StuckLeaf` | AESFile/E3DReader.cpp:139-142 | a leaf of size -16 that sets no field is met again with as much left to go, so that the walk never ends |
| `LeafWalk.BoundIrrelevant` | AESFile/E3DReader.cpp:98-142 | what the walk finds does not depend on the bound on its turns |
| `E3DReader.FileReader.SeekFile` | AESFile/E3DReader.cpp:182-187 | m_file_pos_cache is the real position of the file, before and after |
| `E3DReader.FileReader.FetchBlock` | AESFile/E3DReader.cpp:182-192 | the cache holds the plaintext block at m_cache_pos |
| `E3DReader.FileReader.CacheBlock` | AESFile/E3DReader.cpp:178-193 | whether or not it was a miss, the block of the position is in the cache, and the invariant holds |
| `E3DReader.FileReader.ReadHead` | AESFile/E3DReader.cpp:175-202 | the head of a read delivers the plaintext up to the end of the block |
| `E3DReader.FileReader.ReadMain` | AESFile/E3DReader.cpp:205-223 | the whole blocks of a read are delivered into the caller's buffer |
| `E3DReader.FileReader.ReadTail` | AESFile/E3DReader.cpp:226-243 | the rest of a read comes through the cache |
| `E3DReader.FileReader.ReadFile` | AESFile/E3DReader.cpp:159-249 | an open reader delivers the plaintext from the position on, as much as asked for and there, and advances by it, and fails if that is nothing; otherwise the OS file is read through |
| `E3DReader.ClampExact` | AESFile/E3DReader.cpp:167 | the clamped count is right exactly when the position is not past the end, or past it by a multiple of 2^32 |
| `E3DReader.ClampFailsPastTheEnd` | AESFile/E3DReader.cpp:167 | one byte past the end a read of one byte is clamped to almost 4 GB |
| `E3DReader.FileReader.GetFileSize` | AESFile/E3DReader.cpp:251-261 | the size of the plaintext on an open reader, of the OS file otherwise |
| `E3DReader.FileReader.SetFilePointer` | AESFile/E3DReader.cpp:263-290 | on an open reader the position moves to the target, or is refused when negative and stays, and the distance from the end is ignored; otherwise the OS file is moved |
| `E3DContainer.ParseLeaf` | AESFile/E3DReader.cpp:99-140 | one leaf as the writer leaves it, read by one turn of the parser's loop |
| `E3DContainer.HeaderLayout` | AESFile/E3DWriter.cpp:170-224 | where each of the leaves stands in the header, and that it has 380 bytes |
| `E3DContainer.ParseContainer` | AESFile/E3DReader.cpp:71-153 | the parser recovers size, block size, layout, hash, key hint and signature from a written container, and stops at the body |
| `E3DContainer.ContainerOpens` | AESFile/E3DReader.cpp:144-156 | the parse of a written container gives the written fields, except for an empty plaintext, which is not recognised |
| `E3DContainer.Session` | AESFile/E3DReader.cpp:159-290 | every session of seeks and reads is answered as the plaintext file would, exactly when every read in it asks for something before the end and no seek has a distance from the end |
| `E3DContainer.FileCall` | AESFile/E3DReader.cpp:162-163 | the reference is what an OS file does: a read returns what is there, at the end nothing, and a distance from the end counts |
| `E3DContainer.StepAlike` | AESFile/E3DReader.cpp:169-170 | for which calls the reader answers like the file: a read with something to return, a seek without distance from the end, and no others |
| `E3DContainer.RepliesAlike` | AESFile/E3DReader.cpp:159-290 | a session is answered alike exactly when each of its calls is one of these |
| `E3DContainer.SeekFromTheEndDiffers` | AESFile/E3DReader.cpp:277-278 | five bytes before the end: the reader goes to the end |
| `E3DContainer.ReadAtTheEndDiffers` | AESFile/E3DReader.cpp:169-170 | a read at the end: nothing from the file, failure from the reader |
| `E3DContainer.SessionThrough` | AESFile/E3DReader.cpp:162-163 | without a container or its key every session is that of the OS file |
| `E3DContainer.OpenContainer` | AESFile/E3DReader.cpp:71-157 | a fresh reader on a written container has recovered its fields |
| `E3DContainer.Unlock` | AESFile/E3DReader.cpp:50-69 | the writing key opens the container; another key is accepted exactly if it encrypts the hint text alike |
| `E3DContainer.EmptyContainer` | AESFile/E3DReader.cpp:144-145 | the container of an empty plaintext is its header alone |
| `E3DContainer.EncodeAndUse` | AESFile/E3DWriter.cpp:162-262 | encode, open, set the key, use: the reported size is that of the plaintext, and a session is answered as the plaintext file would exactly when it is of that kind; with an empty plaintext the reader is the container file itself |
| `ComPtrList.PtrList.InsertAfter` | EVRPresenter/linklist.h:139-169 | the item stands behind the given node, with one reference more; a null node, or a null item where none are allowed, is refused and nothing changes |
| `ComPtrList.PtrList.RemoveItem` | EVRPresenter/linklist.h:191-229 | the node is gone from the ring; its reference goes to the caller or is given back; the anchor is refused |
| `ComPtrList.PtrList.Clear` | EVRPresenter/linklist.h:246-263 | the list is empty and every item has lost as many references as it had occurrences |
| `ComPtrList.PtrList.InsertBack` | EVRPresenter/linklist.h:266-269 | the sequence grows at its end |
| `ComPtrList.PtrList.InsertFront` | EVRPresenter/linklist.h:272-275 | the sequence grows at its front |
| `ComPtrList.PtrList.RemoveBack` | EVRPresenter/linklist.h:279-289 | the sequence loses its last element, an empty list fails |
| `ComPtrList.PtrList.RemoveFront` | EVRPresenter/linklist.h:293-303 | the sequence loses its first element, an empty list fails |
| `ComPtrList.PtrList.GetBack` | EVRPresenter/linklist.h:306-316 | the last element, with a reference for the caller |
| `ComPtrList.PtrList.GetFront` | EVRPresenter/linklist.h:319-329 | the first element, with a reference for the caller |
| `ComPtrList.PtrList.GetItemByPosition` | EVRPresenter/linklist.h:359-369 | the item at a position, with a reference for the caller; the end position fails |
| `ComPtrList.PtrList.Next` | EVRPresenter/linklist.h:371-381 | the position after, the end position at the last element |
| `ComPtrList.PtrList.Enumerate` | EVRPresenter/linklist.h:37-51 | the enumeration loop meets each element once, in order, and leaves all references as they were |
| `ComPtrList.Accounted` | EVRPresenter/linklist.h:139-263 | what an operation takes out of the list it hands out or gives back |
| `ComPtrList.StaysBalanced` | EVRPresenter/linklist.h:139-263 | every operation keeps each item's references equal to those of others plus its occurrences plus those handed out |
| `ComPtrList.ListedIsAlive` | EVRPresenter/linklist.h:75-90 | an item in the list has a reference that nobody else can give back |
| `ComPtrList.BothEnds` | EVRPresenter/linklist.h:266-329 | what goes in at one end comes out there first and after all others at the other end, and a look changes nothing |
| `ComPtrList.Run` | EVRPresenter/linklist.h:57-382 | any run of operations does to the list what it does to a sequence, with the same results, and keeps the references balanced |
| `Scheduler.SleepBound` | EVRPresenter/scheduler.cpp:355-381 | after the told sleep the lead is at least three quarters of a frame, and short of that by less than the two truncations allow |
| `Scheduler.PresentedWhenDue` | EVRPresenter/scheduler.cpp:355-393 | with stamp and clock readable a sample is presented exactly when the clock is at stamp - 3/4 frame or later, at a negative rate at stamp + 3/4 frame or earlier; without a stamp at once |
| `Scheduler.ClockMoves` | EVRPresenter/scheduler.cpp:355-360 | while the clock runs on at the rate the lead shrinks by what SleepBound says |
| `Scheduler.WakesInTime` | EVRPresenter/scheduler.cpp:370-381 | on stamps and clock: when the sleep is over the sample is still three quarters of a frame early, and not much more |
| `Scheduler.DueIsPresented` | EVRPresenter/scheduler.cpp:433-445 | a queued sample that is due is presented in the third turn of the thread when the sleep is over |
| `Scheduler.ScheduledIsPresented` | EVRPresenter/scheduler.cpp:450-480 | and in the fourth on a message to schedule |
| `Scheduler.Scheduler.OtherStep` | EVRPresenter/scheduler.cpp:256-264 | one step of a producer, a flush or a stop does what the machine says, is seen, and keeps the state safe |
| `Scheduler.Scheduler.Dequeue` | EVRPresenter/Helpers.h:68-79 | the first sample leaves the queue; an empty queue is left alone |
| `Scheduler.Scheduler.ProcessSample` | EVRPresenter/scheduler.cpp:331-396 | on what stamp and clock say the sample is presented, or put back at the front with the time to sleep exactly if its time is more than three quarters of a frame away |
| `Scheduler.Scheduler.ProcessSamplesInQueue` | EVRPresenter/scheduler.cpp:281-319 | it ends with an infinite wait only if the queue was seen empty or an error occurred, and never with a wait of zero; all states on the way follow the machine |
| `Scheduler.Scheduler.Accept` | EVRPresenter/Helpers.h:62-66 | the sample stands behind all others, and its post is still to come |
| `Scheduler.Scheduler.PutBack` | EVRPresenter/Helpers.h:81-85 | the sample is the first again |
| `Scheduler.Scheduler.HandleFlush` | EVRPresenter/scheduler.cpp:461-466 | everything accepted so far is done with, one more of the flushes asked for is completed, and the state is the machine's next |
| `Scheduler.Scheduler.TakeMessages` | EVRPresenter/scheduler.cpp:450-482 | the message loop keeps the state safe and follows the machine, for any messages in any order |
| `Scheduler.Scheduler.ThreadProc` | EVRPresenter/scheduler.cpp:421-488 | what others can see is a run of the machine by the script, event by event, up to its end or the thread's, and every state of it is safe |
| `Scheduler.Scheduler.Discard` | EVRPresenter/scheduler.cpp:174-175 | after the stop every sample ever queued was presented or thrown away |
| `Scheduler.Observe` | EVRPresenter/scheduler.cpp:405-488 | over all interleavings: one state for each event of the script, each following from the one before, with exactly the samples accepted that the script queues; in every state conservation in queueing order, no lost wakeup, nothing presented early by its stamp and the clock, nothing thrown away but by a flush or stop, and an exit whenever it was asked for and otherwise only after a failure |
| `Scheduler.RunAccepts` | EVRPresenter/scheduler.cpp:256-264 | in each state of a run exactly the samples have been accepted, and the flushes and stops asked for, that the script has up to there |
| `Scheduler.StepAccepts` | EVRPresenter/scheduler.cpp:435-484 | the thread itself queues nothing and asks for nothing |
| `Scheduler.FailedStops` | EVRPresenter/scheduler.cpp:441-444 | a sample whose presenting failed means that the thread is to stop, in every state of a run |
| `Scheduler.StopsAtOnce` | EVRPresenter/scheduler.cpp:431-484 | a thread that is to stop is gone as soon as there are no more messages, and only then |
| `Scheduler.FlushSafe` | EVRPresenter/scheduler.cpp:461-466 | a flush keeps the state safe |
| `Scheduler.Quiescent` | EVRPresenter/scheduler.cpp:435-484 | with the thread blocked on messages, none there and none coming, every sample queued has met its end |
| `Scheduler.PresentedInOrder` | EVRPresenter/scheduler.cpp:281-396 | samples are presented in queueing order, and none twice |
| `Scheduler.OneFate` | EVRPresenter/scheduler.cpp:281-396 | each queued sample is in exactly one of: done with, held by the thread, queued |
| `FlushEvent.SignalMeansDone` | EVRPresenter/scheduler.cpp:193-216 | the signal on which Flush returns means that everything queued before the call is done with, however the run goes on, exactly when no signal of an earlier flush is there or about to come while samples are queued or held |
| `FlushEvent.ReturnsEarly` | EVRPresenter/scheduler.cpp:207-211 | with such a signal there is a run in which the call returns before its own flush |
| `FlushEvent.OneAtATime` | EVRPresenter/scheduler.cpp:193-216 | a call made while none waits can rely on its signal as long as no call has given up |
| `FlushEvent.AfterATimeout` | EVRPresenter/scheduler.cpp:211 | after a timeout the next flush returns on the signal of the first, with its sample still queued |
| `FlushEvent.StaysAwaited` | EVRPresenter/scheduler.cpp:461-466 | without timeouts every flush under way and every signal has a call that waits for it |
| `FlushEvent.Plays` | EVRPresenter/scheduler.cpp:193-216 | waiting and looking change nothing in what the scheduler does: its part of a run is a run of the machine |
| `FrameStep.StepsExact` | EVRPresenter/Presenter.cpp:1253-1322 | requests for n frames discard exactly the first n-1, from the queue and then from the mixer, show the n-th and queue the rest in order |
| `FrameStep.RequestTooLate` | EVRPresenter/Presenter.cpp:1253-1271 | a request after the frame has been shown starts a new run with the frames queued since |
| `FrameStep.RequestInTime` | EVRPresenter/Presenter.cpp:1258-1268 | a request before that adds to the steps to go |
| `FrameStep.RunsExact` | EVRPresenter/Presenter.cpp:1253-1322 | with requests at any time the frames fall into runs: of each run that is over the last frame was shown and the others discarded, and the present one stands as StepsExact says |
| `FrameStep.TallyParts` | EVRPresenter/Presenter.cpp:1253-1322 | these runs are all the frames in order, each as long as was asked for, and their lengths asked for add up to the steps requested |
| `FrameStep.LateStands` | EVRPresenter/Presenter.cpp:1253-1271 | a late request closes a run and begins the next |
| `FrameStep.DrainStands` | EVRPresenter/Presenter.cpp:1296-1305 | the loop over queued frames stops where the step is complete |
| `FrameStep.FeedStands` | EVRPresenter/Presenter.cpp:1944-1984 | one more frame is discarded, shown or queued as its number says |
| `FrameStep.RepaintsApart` | EVRPresenter/Presenter.cpp:1849-1859 | repaints go past the stepping and are recorded apart, in order |
| `FrameStep.PlaybackShows` | EVRPresenter/Presenter.cpp:1851-1854 | without step requests every frame is shown, in order, and none is thrown away or queued |
| `FrameStep.WaitingExact` | EVRPresenter/Presenter.cpp:1281-1305 | a step asked for before the clock starts: the frames that have come stand as after a request with the clock running |
| `FrameStep.WaitingFrames` | EVRPresenter/Presenter.cpp:1944-1984 | while the step waits all but its last frame are thrown away, and that one and the rest are queued |
| `FrameStep.RequestedByControls` | EVRPresenter/Presenter.cpp:1253-1268 | the number of steps asked for is that of the requests alone |
| `SamplePools.SamplePool.GetSample` | EVRPresenter/Helpers.cpp:39-73 | the first free sample is handed out and counted; an uninitialised or empty pool says which |
| `SamplePools.SamplePool.ReturnSample` | EVRPresenter/Helpers.cpp:81-98 | the sample goes to the other end; the counter is a DWORD and is not checked |
| `SamplePools.SamplePool.Initialize` | EVRPresenter/Helpers.cpp:125-155 | all samples become free, in order; a second initialisation is refused |
| `SamplePools.SamplePool.Clear` | EVRPresenter/Helpers.cpp:164-174 | the pool is empty and uninitialised |
| `SamplePools.AccountTaken` | EVRPresenter/Helpers.cpp:56-68 | taking a sample keeps the account: free plus pending is three, pending are the current samples outside |
| `SamplePools.AccountReturned` | EVRPresenter/Presenter.cpp:2086-2089 | a current sample that comes back finds an initialised pool with a sample pending: no failure, no underflow |
| `SamplePools.AccountDisposed` | EVRPresenter/Presenter.cpp:2086-2093 | a stale sample does not enter the account |
| `SamplePools.AccountCleared` | EVRPresenter/Presenter.cpp:2028-2046 | a new token leaves no current sample outside |
| `SamplePools.AccountFilled` | EVRPresenter/Presenter.cpp:1582-1598 | three new samples with the current token start the account |
| `SamplePools.TokenTells` | EVRPresenter/Presenter.cpp:2039 | tokens tell generations apart exactly unless they lie a multiple of 2^32 apart |
| `Presenter.EVRCustomPresenter.DeliverSample` | EVRPresenter/Presenter.cpp:1883-1919 | the scheduler gets the sample unless device or scheduler fail, to present now when not playing, when scrubbing or for a repaint; an error or a device reset is reported |
| `Presenter.EVRCustomPresenter.DeliverFrameStepSample` | EVRPresenter/Presenter.cpp:1927-1989 | with a device that works: the sample is thrown away if its time has passed while scrubbing, and otherwise goes where the frame-step function says; the sample queue keeps its order whatever fails |
| `Presenter.EVRCustomPresenter.StartFrameStep` | EVRPresenter/Presenter.cpp:1281-1322 | a waiting step takes queued frames in order; after a cancelled one the queue is shown in order |
| `Presenter.EVRCustomPresenter.PrepareFrameStep` | EVRPresenter/Presenter.cpp:1253-1271 | with the clock running, a step request as the frame-step function has it |
| `Presenter.EVRCustomPresenter.CancelFrameStep` | EVRPresenter/Presenter.cpp:1370-1386 | stepping ends, the queue stays, and the event goes out exactly for a step under way |
| `Presenter.EVRCustomPresenter.ReleaseResources` | EVRPresenter/Presenter.cpp:2028-2046 | one generation further, an empty pool and an empty frame-step queue, still accounted for |
| `Presenter.EVRCustomPresenter.SetMediaType` | EVRPresenter/Presenter.cpp:1546-1624 | what it returns, which type is left and how many generations it costs, in every case, with a pool of three new samples after a change |
| `Presenter.EVRCustomPresenter.RenegotiateMediaType` | EVRPresenter/Presenter.cpp:1027-1111 | the type set is that of the first proposal that passes the support check, the adjustment, the test, the making of its samples and the mixer; without one there is no success |
| `Presenter.FirstThatTakes` | EVRPresenter/Presenter.cpp:1046-1107 | the type set is that of the first proposal that can be set and is accepted; without one it is gone if any was tried, and otherwise as it was |
| `Presenter.EVRCustomPresenter.GetSample` | EVRPresenter/Presenter.cpp:1766-1778 | the sample handed out bears the current token, as the assertion in the code expects |
| `Presenter.EVRCustomPresenter.ReturnSample` | EVRPresenter/Presenter.cpp:2089 | returning a current sample cannot fail and counts down by one |
| `Presenter.EVRCustomPresenter.ProcessOutput` | EVRPresenter/Presenter.cpp:1733-1870 | when the mixer can be asked, and only then, it is, and each answer leads to what it should; a frame without a step is delivered, now exactly when the clock does not run, when scrubbing or for a repaint; a frame with a step goes to the step; the pool stays accounted for |
| `Presenter.EVRCustomPresenter.ProcessOutputLoop` | EVRPresenter/Presenter.cpp:1695-1721 | the loop ends with nothing left that it could take, each frame the mixer had is taken or still there, and the end-of-stream event goes out exactly when it was due, the mixer is done and no current sample is out |
| `Presenter.EVRCustomPresenter.RepaintVideo` | EVRPresenter/Presenter.cpp:903-920 | once a frame has been shown the request is done at once if there is a free sample, and otherwise stays; stepping is not touched |
| `Presenter.EVRCustomPresenter.CheckEndOfStream` | EVRPresenter/Presenter.cpp:1216-1240 | the event goes out exactly when the flag is set, the mixer is done and no current sample is out |
| `Presenter.EVRCustomPresenter.StepThrough` | EVRPresenter/Presenter.cpp:1253-1322 | over every run of requests, mixer frames, repaints and returned samples with the clock running: of the n steps these moves request exactly the first n-1 frames are discarded, the n-th is shown and the rest queued in order, as long as requests come in time; whenever they come, this holds of each run between late requests; each frame of the mixer is among these, repainted as asked, or still there |
| `Presenter.EVRCustomPresenter.PlayThrough` | EVRPresenter/Presenter.cpp:1695-1870 | over every run of mixer frames, repaints and returned samples without a step request: every frame taken is shown, in order, none is thrown away or kept back, and each frame of the mixer is taken or still there |
| `Presenter.EVRCustomPresenter.OnClockStart` | EVRPresenter/Presenter.cpp:431-471 | a waiting step begins, with what is queued and then with what the mixer has, when the clock starts from the stopped state; from the paused state it goes on waiting, and a start at a new position empties the queue |
| `Presenter.EVRCustomPresenter.OnClockRestart` | EVRPresenter/Presenter.cpp:480-503 | after a restart no step is left waiting: it takes what is queued and then what the mixer has |
| `Presenter.EVRCustomPresenter.OnClockStop` | EVRPresenter/Presenter.cpp:512-535 | stopping flushes and cancels a step |
| `Presenter.EVRCustomPresenter.OnClockSetRate` | EVRPresenter/Presenter.cpp:568-596 | leaving rate zero cancels the step and drops its queue |
| `Presenter.EVRCustomPresenter.InitServicePointers` | EVRPresenter/Presenter.cpp:207-271 | which lookups lead to the stopped state, with which result; a mixer that cannot be configured goes unreported |
| `Presenter.EVRCustomPresenter.ReleaseServicePointers` | EVRPresenter/Presenter.cpp:279-303 | after shutdown there is no pool and no current sample out |
| `Presenter.EVRCustomPresenter.OnSampleFreeStep` | EVRPresenter/Presenter.cpp:2067-2082 | the step completes exactly when its own sample comes back |
| `Presenter.EVRCustomPresenter.OnSampleFree` | EVRPresenter/Presenter.cpp:2084-2095 | a current sample goes back to the pool, from which then only the frames that have come since are missing; a stale one never gets there |
| `Presenter.EVRCustomPresenter.Run` | EVRPresenter/Presenter.cpp:317-596 | for every sequence of entries with any answers of mixer and device: one state for each entry, each following from the one before as its entry says, and in each the pool is accounted for, the type in step with the pool, and no steps are left behind a submitted frame |
| `Clips.Program.AddRef` | AvsSlideShow/avisynth.h:435 | one reference more, counted |
| `Clips.Program.Release` | AvsSlideShow/avisynth.h:436 | the clip is deleted exactly if that was its last reference, and then its child's reference goes too, down the chain |
| `Clips.Program.Init` | AvsSlideShow/avisynth.h:460-463 | a new handle, counted |
| `Clips.Program.Set` | AvsSlideShow/avisynth.h:464-468 | assignment, also of a variable to itself, keeps every count equal to the number of handles |
| `Clips.Program.Destroy` | AvsSlideShow/avisynth.h:483 | the handle goes, and with the last one the clip |
| `Clips.Program.MakeClip` | AvsSlideShow/avisynth.h:600-605 | a filter holds a handle to its child from the start |
| `Clips.Program.Do` | AvsSlideShow/avisynth.h:470-595 | for each construction, copy, assignment and destruction of PClip and AVSValue, which variable changes and to what, with all others and the clips as they were |
| `Clips.Program.Run` | AvsSlideShow/avisynth.h:430-611 | every program leaves in the variables what the program without counts leaves there, and exactly those clips exist that are new, in a variable, or the child of one that exists; no clip is deleted twice |
| `Clips.Program.LiveExists` | AvsSlideShow/avisynth.h:434-436 | a clip lives exactly if it can be reached, or has never been in a handle |
| `Clips.Program.LegalAgrees` | AvsSlideShow/avisynth.h:460-468 | what a program may do next depends on what can be reached, not on the counts |
| `Clips.Program.CountsAreHandles` | AvsSlideShow/avisynth.h:430-436 | each count is the number of variables of either kind and of filters that hold the clip, and whatever is held exists |
| `Clips.Program.KnowsItsClips` | AvsSlideShow/avisynth.h:460-468 | every program state meets what the laws of programs ask for: what is in a variable has been in a handle |
| `Clips.OneEffect` | AvsSlideShow/avisynth.h:470-595 | one operation changes one variable, or makes one clip, and nothing else |
| `Clips.CopyThenDrop` | AvsSlideShow/avisynth.h:483 | a copy that is then destroyed leaves every variable and every clip as it was |
| `Clips.SelfAssignment` | AvsSlideShow/avisynth.h:582-594 | so does the assignment of a variable to itself |
| `Clips.Exchange` | AvsSlideShow/avisynth.h:582-594 | two variables are exchanged by way of a third, and no clip is made or deleted |
| `Clips.PointerKeeps` | AvsSlideShow/avisynth.h:470-483 | a second handle keeps a clip when the first is destroyed |
| `Clips.Program.LivesWithItsHandles` | AvsSlideShow/avisynth.h:434-436 | a clip that was ever held exists exactly while it has a handle, and is deleted otherwise |
| `Clips.Program.NothingLeaks` | AvsSlideShow/avisynth.h:600-611 | with no variable left, every clip that was ever held has been deleted |
| `FrameRate.GcdDivides` | AvsSlideShow/avisynth.h:249-252 | the result of the loop divides both numbers |
| `FrameRate.DivideByGcd` | AvsSlideShow/avisynth.h:249-254 | dividing by it gives the same fraction in lowest terms |
| `FrameRate.LowestTermsUnique` | AvsSlideShow/avisynth.h:249-254 | a pair in lowest terms is the only such pair with its value |
| `FrameRate.FindGcd` | AvsSlideShow/avisynth.h:249-252 | the loop ends with the greatest common divisor |
| `FrameRate.VideoInfo.SetFPS` | AvsSlideShow/avisynth.h:243-256 | the same value in lowest terms, or 0/1 when either is zero |
| `FrameRate.VideoInfo.CountShift` | AvsSlideShow/avisynth.h:270-275 | the loop on the combined bits returns the shift that makes both terms fit in 31 bits |
| `FrameRate.VideoInfo.MulDivFPS` | AvsSlideShow/avisynth.h:259-285 | the reduced product if that fits in 31 bits, and otherwise both terms with 2^(u-1) added, shifted by u and reduced again, with all shift counts modulo 32 |
| `FrameRate.ExactWhenItFits` | AvsSlideShow/avisynth.h:281-284 | the product is exact and in lowest terms whenever it fits in 31 bits |
| `FrameRate.RoundedOtherwise` | AvsSlideShow/avisynth.h:276-280 | otherwise, up to 62 bits, each term is off by at most half a unit of the last place kept and at most 2^31, and the larger keeps 31 bits |
| `FrameRate.RoundingError` | AvsSlideShow/avisynth.h:277-279 | the error of one rounded term |
| `FrameRate.ShiftedIsRounded` | AvsSlideShow/avisynth.h:277-279 | with a count below 32 the shift of the code is this rounding |
| `FrameRate.OrBelow` | AvsSlideShow/avisynth.h:270-272 | the top bit of a or b is that of the larger |
| `FrameRate.ShiftBelow32` | AvsSlideShow/avisynth.h:271-275 | the shift count stays below 32 exactly for pairs below 2^62 |
| `FrameRate.WrapsPast62Bits` | AvsSlideShow/avisynth.h:259-280 | 2^31/1 times 2^31/1 leaves 2^31/(2^31+1) |
| `Demuxer.C3dvDemuxer.DemuxRiff` | 3dvSource/3dvDemuxer.cpp:54-99 | the walk ends, and the calls it makes are those whose meaning CallsLieNested and CallsArePreorder give, in order |
| `Demuxer.CallsLieNested` | 3dvSource/3dvDemuxer.cpp:54-99 | on every byte string: payloads lie in the range, are nested or disjoint, and there is at most one call for eight bytes |
| `Demuxer.CallsArePreorder` | 3dvSource/3dvDemuxer.cpp:54-99 | on well-formed boxes (section 4.2 of ISO/IEC 14496-12) the calls are exactly the boxes in preorder, and the walk succeeds |
| `Demuxer.HeaderAt` | 3dvSource/3dvDemuxer.cpp:60-69 | size and type of a written box are read back |
| `Demuxer.BigEndianRead` | 3dvSource/3dvDemuxer.cpp:3-14 | reverse_byte_order reads big-endian numbers |
| `Demuxer.FirstByteHighest` | 3dvSource/3dvDemuxer.cpp:3-14 | the first byte weighs most |
| `Demuxer.NoBoxFails` | 3dvSource/3dvDemuxer.cpp:69-72 | a size that is too large or below eight, or a type with a byte outside '1' to 'z', makes no call and fails |
| `Demuxer.EmptyMoov` | 3dvSource/3dvDemuxer.cpp:54-75 | an empty box of type moov, as literal bytes, is one call |
| `YuvToRgb.Tables.InitConvertTable` | AvsSlideShow/rgb.cpp:150-177 | all tables hold their products, and the clamp table clamps from 384 below zero to 384 above 255 |
| `YuvToRgb.Tables.WritePixel` | AvsSlideShow/rgb.cpp:205-209 | three bytes are the converted colour, every table index in range, each byte written once |
| `YuvToRgb.Tables.PutBlock` | AvsSlideShow/rgb.cpp:199-224 | a two-by-two block: four pixels with their shared u and v, all others untouched |
| `YuvToRgb.Tables.ConvertYUV2RGB` | AvsSlideShow/rgb.cpp:180-232 | for even width and height every output byte is written exactly once, and every pixel is the formula of its own y and its block's u and v |
| `YuvToRgb.BytesArePixels` | AvsSlideShow/rgb.cpp:180-232 | every output byte belongs to a pixel |
| `YuvToRgb.PosApart` | AvsSlideShow/rgb.cpp:188-191 | different pixels have different places |
| `YuvToRgb.NearBt601` | AvsSlideShow/rgb.cpp:150-165 | each colour is that of ITU-R BT.601, rounded down and clamped, but for two hundredths |
| `YuvToRgb.Greys` | AvsSlideShow/rgb.cpp:150-165 | without colour the three are equal; black is 0 and white, at 235, is 254 |
| `YuvToRgb.PixelBytes` | AvsSlideShow/rgb.cpp:180-232 | where the three bytes of a pixel are, and its own y and its block's u and v |
| `Thumbnails.Server.ProcessCommand` | Thumbnail/Thumbnail.cpp:113-148 | the new globals and the reply to each command, with a picture for get_frame only; nothing for an unknown command |
| `Thumbnails.Server.Step` | Thumbnail/Thumbnail.cpp:53-92 | one step of the loop, a read with what follows or a write, brings the request on by one message; a read on an empty pipe waits |
| `Thumbnails.CompleteIsBetween` | Thumbnail/Thumbnail.cpp:53-92 | once the client has read the whole reply the server waits for a command, the pipe is empty, and one header and at most one picture have been written |
| `Thumbnails.ServerIsBusy` | Thumbnail/Thumbnail.cpp:53-92 | while the client waits for a message that is due, the server has something to do: no deadlock |
| `Thumbnails.EmptyPictureHangs` | Thumbnail/Thumbnail.cpp:86-92 | with a picture of size zero both wait for ever |
| `Thumbnails.RemoteThumbnail.Exchange` | Thumbnail/remote_thumbnail.cpp:102-112 | whatever the server's steps in between, one command counted, and the header read is that of its reply |
| `Thumbnails.RemoteThumbnail.ReadFile` | Thumbnail/remote_thumbnail.cpp:111-112 | the wait ends, with the next message of the reply |
| `Thumbnails.RemoteThumbnail.SetOutFormat` | Thumbnail/remote_thumbnail.cpp:102-124 | as the plain call; on success the buffer is as large as the server's pictures, and a refusal ends the connection |
| `Thumbnails.RemoteThumbnail.OpenFile` | Thumbnail/remote_thumbnail.cpp:72-85 | as two plain calls, the format set whether or not the file could be opened |
| `Thumbnails.RemoteThumbnail.Simple` | Thumbnail/remote_thumbnail.cpp:86-101 | as the plain call; a failure ends the connection |
| `Thumbnails.RemoteThumbnail.GetOneFrame` | Thumbnail/remote_thumbnail.cpp:125-142 | as the plain call: the picture fills the front of the buffer, at the end of the film too |
| `Thumbnails.RemoteThumbnail.Run` | Thumbnail/remote_thumbnail.cpp:18-156 | for every sequence of calls and every interleaving: the results and the state are those of plain calls, between calls the pipe is empty and the server waits, and it has written one header for each command and one picture for each frame |
| `Thumbnails.DoSane` | Thumbnail/remote_thumbnail.cpp:102-124 | after set_out_format the buffer has the size of the server's pictures until the connection ends |
| `Thumbnails.AnswersTell` | Thumbnail/remote_thumbnail.cpp:86-142 | what each call returns and leaves, by what the screenshoter answers: 0 or -1, for a picture 0 or 1 |
| `Thumbnails.NotConnected` | Thumbnail/remote_thumbnail.cpp:60-70 | without a connection nothing but a connect does anything, and with which error |
| `Thumbnails.WireFormat` | Thumbnail/remote_thumbnail.cpp:72-142 | which header and data go over the wire for each command |
| `Thumbnails.RemoteThumbnail.Yield` | Thumbnail/Thumbnail.cpp:53-92 | at a scheduling point the server takes exactly the steps the script says |
| `StreamSeek.SeekToFrame` | 3dvSource/my12doomSource.cpp:336 | seeking to the time of frame n finds frame n if that time is exact and frame n-1 otherwise |
| `StreamSeek.TimeIs` | 3dvSource/my12doomSource.cpp:137-138 | the time of frame n is its part of the film, rounded down to 100 ns; after all frames the film is over |
| `StreamSeek.FrameIs` | 3dvSource/my12doomSource.cpp:336 | the frame for a time is the last whose part of the film has begun |
| `StreamSeek.TimesAscend` | 3dvSource/my12doomSource.cpp:137-138 | frame times never go back |
| `StreamSeek.SourceStream.Play` | 3dvSource/my12doomSource.cpp:116-143 | the frames tile the timeline: each stops where the next starts |
| `StreamSeek.SourceStream.FindKeyframe` | 3dvSource/my12doomSource.cpp:339-357 | the result of the two scans, whose meaning ScanFinds gives |
| `StreamSeek.ScanFinds` | 3dvSource/my12doomSource.cpp:341-357 | for ascending keyframes the search lands on the greatest keyframe not after the target exactly when the first is not after it, and on the last keyframe otherwise |
| `StreamSeek.SourceStream.ChangeStart` | 3dvSource/my12doomSource.cpp:331-358 | frame and stream start after a seek |

## Left out

- ReleaseServicePointers: one step here; in the code the part from EVRPresenter/Presenter.cpp:291 on runs outside the lock.
- SetKey: other key lengths than 128, 192 and 256 bits, for which the cipher is not defined.
- ReadFile: reads that return 2^31 bytes and more, whose loop counter overflows; positions past the end for which the clamp goes wrong (ClampExact), where the code writes past the buffer that was asked for; and the untouched count output of a failed read. The OS read inside the file is taken to deliver all it is asked for, as the code assumes.
- SetFile: the 32-byte clear of the 20-byte hash, the eight bytes read into the four of the block size, fields half filled by a short read, and overflow of the 64-bit sum of leaf sizes. A walk that never ends is watched for as many turns as one likes. It frees m_block_cache at once and, when the header is refused, leaves the pointer dangling, so that the next SetFile frees it again; memory is not modelled, and the field keeps its value here.
- AddLeaf: reads the size of the child once, so that the tree has to be finished bottom-up; leaves backed by a file position are unused by encode_file and not modelled.
- EncodeFile: a progress callback that cancels, and failure of the OS calls.
- The tag "blocksize" has nine characters, of which writer and reader both use eight.
- Process keys in the registry, the command line tool and the API hooks of AESFile.
- PtrList: allocation failure, and a count beyond 2^32.
- ScheduleSample: the path that presents at once, past the queue; failure of PostThreadMessage; a presentation clock that is missing; rate zero, for which the sleep divides by zero. Rates are real numbers without rounding.
- SignalMeansDone: a call of Flush that gives up, or returns because the thread is gone, promises nothing, in the code too; a Flush without a thread returns at once and is not modelled.
- TakeMessages: messages of other kinds than the scheduler's.
- ThreadProc: the model is of the thread against a script of the other threads; that Windows wakes a waiting thread for a posted message is built into the model.
- Presenter: samples are told apart by identity, not by COM pointer (the code compares pointers from two different QueryInterface calls); TrackSample and allocation succeed; latency and repaint times are left out, and of the events only those of delivery are recorded.
- OnSampleFree: a sample that is exactly a multiple of 2^32 generations old, which its token takes for a new one (TokenTells).
- StepsExact: is about a running clock without scrubbing, cancelling, flushing or failing delivery, and so are StepThrough and PlayThrough; WaitingExact is about a step that waits with no frames left over from a cancelled one.
- Program: AVSValue arrays hold no references and are values like numbers here; PVideoFrame has the same handle code as PClip.
- MulDivFPS: both products zero, for which the code divides by zero. A shift of 1 by 32 and more, which only reduced pairs from 2^63 on reach, is undefined in C++ and counts modulo 32 here.
- The frame and sample conversions and queries of VideoInfo, which are single expressions.
- DemuxRiff: index and size are 32-bit ints in the source, so that its offsets wrap around in files of 2^31 bytes and more; here they do not.
- HandleData: only its calls are recorded; the tables of tracks that it fills are not modelled.
- ConvertRGBA2YUV, whose results depend on rounding of doubles.
- ProcessCommand: sizes that are negative and pictures of 2^31 bytes and more, with which the buffers are too small or cannot be made; SetOutFormat is restricted in the same way. A client that terminates the server, and a server that crashes.
- GetOneFrame: a buffer smaller than the server's picture, into which the code reads all the same, and a picture of size zero, with which it never returns (EmptyPictureHangs).
- Yield: the client's scheduling points are its reads and writes; a write never waits for room in the pipe.
- RemoteThumbnail: m_connected is not initialised in the source and starts false here.
- FillBuffer: the frame data itself, and 64-bit overflow of the products.
- Media-type negotiation in detail, aspect ratios, Direct3D, DirectShow, NVAPI and the drawing tools.
