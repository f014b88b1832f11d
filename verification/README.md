# Sidewalk firmware: frame codec, storage and radio arbitration

A Dafny model of parts of the Sidewalk add-on whose correctness is not visible from one function: the FSK frame codec of the LR11xx driver, the append-only TLV store, the manufacturing image written by the provisioning tool, the sharing of one radio chip between Sidewalk and the location modem, the GNSS scan group, and the scratch-buffer table. `dafny verify dfyconfig.toml` checks all of it.

| module | models |
|---|---|
| `Wrappers`, `Bits`, `Gf2`, `Gf2Order` | bit strings, division over GF(2), the shift register that performs it, powers of x modulo a generator |
| `Crc16`, `Crc16Order`, `Crc32`, `Crc32Order`, `Whitening`, `WhiteningPeriod` | `lr11xx_halo.c` |
| `FskFrame`, `FskReceive`, `BurstDetection`, `FewBitErrors` | `lr11xx_radio_fsk.c`: building a frame in place, taking it apart, and which transmission errors get through |
| `TlvStore`, `TlvLog`, `TlvProgramming` | `tlv.c` over the RAM back end, the log it stands for, and which bytes it programs how often |
| `MfgImage`, `MfgRegion`, `MfgRewrite`, `CertChain` | `SidMfgOutBin` and `SidCertMfgCertChain` of `run.py` |
| `RadioTypes`, `Radio`, `RadioInit` | `lr11xx_radio.c`: the driver context as a value, and what each call makes of it |
| `RadioCommands`, `RadioEvents` | with which answers each call succeeds and which commands it has then sent, and which event the interrupt handler reports for which flags |
| `RadioRuns`, `RadioShared`, `RadioSimulation`, `RadioCalibration`, `RadioTuning` | theorems about every run of that driver, also with the location modem sending commands of its own in a scan |
| `RadioDriver` | the driver as an object whose methods change its fields, and those theorems on the fields |
| `GnssPayload` | `sid_pal_gnss_wifi_impl.c` |
| `ScratchBuffer` | `scratch_buffer.c` |

Imperative code is modelled by methods and classes, each proved equal to a function of its inputs or old state; the theorems are about those functions. In the radio modules every answer of the chip, the pins, the timer and the configuration callbacks is drawn from an arbitrary function `env`, every command is recorded with its outcome in a ghost trace, and one public call, one interrupt or one timer expiry is one step. `FSK_SUPPRESS_RX_TIMEOUT`, `HALO_ENABLE_DIAGNOSTICS`, `RADIO_LR11XX_TXPWR_WORKAROUND` and `CONFIG_RADIO_LOCK_TEST` are off.

What the code does differently from what its limits, comments or documentation suggest, each stated as an exact condition:

- CRC-32 pads payloads shorter than four bytes, so a 32-bit burst can pass the check for payloads of two and three bytes, and for no other length (`BurstDetection.BurstGuarantee`).
- The announced frame length is kept modulo 256 and wraps for the two longest payloads of either check type (`FskFrame.AnnouncedLength`).
- `tlv_read` allows reads into the padding, although its header documents `-ENOMEM` beyond the data size; a record written with size 0, a size above 255 or type 0xFFFF is not kept, and its bytes are programmed again (`TlvLog.KeptExactly`, `TlvProgramming.WriteOnceExactly`). The free-space walk reads past `end_offset`, by up to four bytes, exactly when what is stored leaves less room than a header (`TlvLog.PastEndExactly`), and the capacity test of `tlv_write` takes its sum in 32 bits and refuses nothing once it wraps (`TlvStore.NoRoomExactly`).
- `remove_value_with_tag` does not see a record of exactly four bytes at the end of the image, so rewriting a single empty value duplicates it, and a value written over such a record stays hidden behind it (`MfgRegion.PutIsUpdate`, `MfgRewrite.WriteIsMapUpdate`, `MfgRewrite.WriteTwice`).
- `irq_process` does not clear its event variable after reporting a simulated timeout, so outside a scan the same event is reported twice (`RadioSimulation.ExpiryAfterRelease`, `RadioSimulation.ReportedOnce`).
- `radio_init` resets the chip but keeps `radio_freq_hz`, so the next `set_frequency` in the same band skips the calibration for that band; what the chip then has is the calibration it makes as it starts or, with a TCXO, the general one init runs, and the two agree exactly if that covers the band (`RadioCalibration.Step`, `RadioCalibration.ReinitReplacesCalibration`, `RadioCalibration.TunedUncalibrated`). It also assigns the modem before the interrupt mask (`RadioRuns.MaskStep`).
- The cached frequency of a tuned radio parts from the chip's by a tuning that fails, by a reset, and by a tuning of the location modem in a scan, which the release does not undo (`RadioTuning.TunedInRunExactly`, `RadioTuning.ForeignTuningStays`).
- `radio_init` returns success when, after the clocks, its standby command fails (`RadioInit.SilentFailure`).
- `scratch_buffer_init` on a table in use leaves blocks in slots marked unused (`ScratchBuffer.InitSoundIff`).

## Model

| member | source | states |
|---|---|---|
| Gf2.FeedIsTheRemainder | subsys/semtech/lr11xx/lr11xx_halo.c:68-120 | a shift register fed with a message holds the remainder of its division by the generator, and no other value is that remainder |
| Gf2.FeedLinear | subsys/semtech/lr11xx/lr11xx_halo.c:68-120 | feeding is linear in register and message together |
| Gf2.BurstLeavesRemainder | subsys/semtech/lr11xx/lr11xx_halo.c:68-120 | an error confined to as many bits as the register is wide never divides out |
| Gf2.FeedKeepsParity | subsys/semtech/lr11xx/lr11xx_halo.c:68-87 | under a generator of even weight the register keeps the parity of what it was fed |
| Gf2Order.PowerDoubles | subsys/semtech/lr11xx/lr11xx_halo.c:68-87 | squaring x^n modulo the generator gives x^2n |
| Gf2Order.PairDividesOnlyIf | subsys/semtech/lr11xx/lr11xx_halo.c:68-87 | an error of two bits divides out only if x to their distance is one |
| Crc16.ComputeCrc16 | subsys/semtech/lr11xx/lr11xx_halo.c:68-87 | the byte loop with its conditional shifts computes `Crc16` of the buffer, and of nothing for a null buffer |
| Crc16.AbsorbByte | subsys/semtech/lr11xx/lr11xx_halo.c:74-84 | one byte is absorbed by eight conditional shifts |
| Crc16.RegisterIsFeed | subsys/semtech/lr11xx/lr11xx_halo.c:68-87 | the word-wide loop is the bit-serial register |
| Crc16.CrcIsTheRemainder | subsys/semtech/lr11xx/lr11xx_halo.c:68-87 | the CRC is the remainder of m(x)·x^16 by x^16+x^12+x^5+1, and the only one |
| Crc16.CrcDifference | subsys/semtech/lr11xx/lr11xx_halo.c:68-87 | for equal lengths the XOR of two CRCs is a function of the XOR of the inputs |
| Crc16.ErrorPassesCheck | subsys/semtech/lr11xx/lr11xx_radio_fsk.c:171-204 | an error in payload and CRC goes unseen exactly when it divides by the generator |
| Crc16Order.NoEarlyReturn | subsys/semtech/lr11xx/lr11xx_halo.c:68-87 | no power of x below 4681 is one modulo the generator |
| Crc32.ComputeCrc32 | subsys/semtech/lr11xx/lr11xx_halo.c:89-120 | the loop over the zero-padded copy computes `Crc32`, and 0 for a null or empty buffer |
| Crc32.RegisterIsFeed | subsys/semtech/lr11xx/lr11xx_halo.c:89-120 | the word-wide loop is the bit-serial register |
| Crc32.CrcIsTheRemainder | subsys/semtech/lr11xx/lr11xx_halo.c:89-120 | the complement of the CRC is the remainder by 0x04C11DB7 with all-ones preset of the message padded to four bytes, and the only one |
| Crc32.CrcDifference | subsys/semtech/lr11xx/lr11xx_halo.c:89-120 | for equal lengths preset and complement cancel in the XOR of two CRCs |
| Crc32.ErrorPassesCheck | subsys/semtech/lr11xx/lr11xx_radio_fsk.c:171-204 | an error in payload and CRC goes unseen exactly when its padded form divides by the generator |
| Crc32Order.NoEarlyReturn | subsys/semtech/lr11xx/lr11xx_halo.c:89-120 | no power of x below 65537 is one modulo the generator |
| Whitening.PerformDataWhitening | subsys/semtech/lr11xx/lr11xx_halo.c:34-66 | bit j of byte i of the output is that of the input, inverted exactly where bit 9 + 8i + j of PN9 from the seed is one, also when both are the same buffer, and nothing else is written |
| Whitening.WhitenTwice | subsys/semtech/lr11xx/lr11xx_halo.c:34-66 | whitening undoes itself |
| Whitening.WhitenKeepsDifference | subsys/semtech/lr11xx/lr11xx_halo.c:34-66 | an error before and after whitening is the same error |
| Whitening.KeyIsPn9 | subsys/semtech/lr11xx/lr11xx_halo.c:34-66 | the nibble-parallel key is the bit-serial PN9 sequence with next bit b0 xor b5, earliest bit in the MSB |
| Whitening.WhitenAddsPn9 | subsys/semtech/lr11xx/lr11xx_halo.c:34-66 | whitening adds the PN9 sequence of the seed to the data, bit by bit, from the first bit after the nine of the seed |
| Whitening.LfsrNeverZero | subsys/semtech/lr11xx/lr11xx_halo.c:34-66 | the state stays in 1..511 |
| WhiteningPeriod.PeriodExactly | subsys/semtech/lr11xx/lr11xx_halo.c:34-66 | the periods of the bit sequence are exactly the multiples of 511 |
| WhiteningPeriod.KeyPeriod | subsys/semtech/lr11xx/lr11xx_halo.c:34-66 | the key bytes repeat after exactly the multiples of 511 bytes |
| FskFrame.PrepareFskForTx | subsys/semtech/lr11xx/lr11xx_radio_fsk.c:331-421 | every error case and, on success, the whole new buffer, sync word and packet parameters; a refused call changes nothing |
| FskFrame.TxCheckExactly | subsys/semtech/lr11xx/lr11xx_radio_fsk.c:349-389 | frames are built exactly for payloads of 1..251 bytes with type 0 and 1..253 with type 1 and a preamble; another type is not supported, anything else an invalid parameter |
| FskFrame.HeaderOfFrame | subsys/semtech/lr11xx/lr11xx_radio_fsk.c:394-397 | the first byte holds the type in its high nibble and whitening in bit 3, the second the length of payload and check sequence |
| FskFrame.SyncWordValue | subsys/semtech/lr11xx/lr11xx_radio_fsk.c:405-408 | 0x55 and then the delimiter 0x904E, or 0x6F4E with error correction |
| FskFrame.PsduBit | subsys/semtech/lr11xx/lr11xx_radio_fsk.c:365-403 | bit k on the air: that of payload and check sequence, plus PN9 from the all-ones seed with whitening |
| FskFrame.BuildPsdu | subsys/semtech/lr11xx/lr11xx_radio_fsk.c:361-403 | the check bytes written before the overlapping move survive it, and header and whitening give the frame; bit k of the body is bit k of payload and check sequence, with whitening plus bit 9 + k of PN9 from 0x1FF |
| FskFrame.LayOut | subsys/semtech/lr11xx/lr11xx_radio_fsk.c:365-391 | after the move the buffer holds payload and check sequence past the header |
| FskFrame.AnnouncedLength | subsys/semtech/lr11xx/lr11xx_radio_fsk.c:412 | the stored length is the frame's exactly for payloads at least two bytes below the limit |
| FskReceive.ProcessSyncWordDetected | subsys/semtech/lr11xx/lr11xx_radio_fsk.c:83-114 | the wait ends with the first answer whose count field exceeds four bytes; header bytes and marker are then placed at the head of the receive buffer, and the chip is told the length from the header |
| FskReceive.WholeFrameExpected | subsys/semtech/lr11xx/lr11xx_radio_fsk.c:105-106 | the length told to the chip is that of the frame sent |
| FskReceive.ProcessRxDone | subsys/semtech/lr11xx/lr11xx_radio_fsk.c:116-224 | no error if and only if the marker is there, type and length allow a payload, the three commands succeed and the de-whitened body ends in its own CRC; error, status, length and buffer of every refusal |
| FskReceive.RxDoneJudged | subsys/semtech/lr11xx/lr11xx_radio_fsk.c:129-208 | the same of every receive buffer and chip answer: marker absent, no payload, either read failing, an unsupported type, packet status failing and a wrong CRC each have their error and status |
| FskReceive.CheckFcs | subsys/semtech/lr11xx/lr11xx_radio_fsk.c:171-204 | the comparing loop accepts exactly matching check sequences |
| FskReceive.PhrRoundTrip | subsys/semtech/lr11xx/lr11xx_radio_fsk.c:142-144 | the two header bytes decode to check type, whitening flag and length |
| FskReceive.ReceiveChecks | subsys/semtech/lr11xx/lr11xx_radio_fsk.c:129-208 | after a frame's header any body is accepted exactly if its check sequence matches after de-whitening, and a refusal is a generic error with bad CRC |
| FskReceive.FailuresOnlyRefuse | subsys/semtech/lr11xx/lr11xx_radio_fsk.c:129-208 | reception succeeds exactly if all chip commands do and it would with all of them succeeding |
| FskReceive.RoundTrip | subsys/semtech/lr11xx/lr11xx_radio_fsk.c:129-208 | a received frame yields no error, the same payload and the same length |
| BurstDetection.MatchesIffCodeword | subsys/semtech/lr11xx/lr11xx_radio_fsk.c:171-204 | whether an error is seen depends on the error alone |
| BurstDetection.AcceptedIffCodeword | subsys/semtech/lr11xx/lr11xx_radio_fsk.c:129-208 | a corrupted transmission, whitened or not, is accepted exactly when the error is a codeword |
| BurstDetection.BurstRejected | subsys/semtech/lr11xx/lr11xx_radio_fsk.c:171-204 | bursts up to the width of the check sequence end in an error, never in success |
| BurstDetection.OddErrorRejected | subsys/semtech/lr11xx/lr11xx_radio_fsk.c:171-204 | with FCS type 1 every odd number of flipped bits ends in an error |
| FewBitErrors.PairRejected | subsys/semtech/lr11xx/lr11xx_radio_fsk.c:171-204 | two flipped bits, however far apart in the frame and with either check sequence, end in an error |
| FewBitErrors.FewBitsRejected | subsys/semtech/lr11xx/lr11xx_radio_fsk.c:171-204 | one or two flipped bits, and with FCS type 1 three, end in an error, never in success |
| BurstDetection.BurstGuarantee | subsys/semtech/lr11xx/lr11xx_radio_fsk.c:171-204 | all such bursts are refused if and only if FCS type 1 is used or the payload is not two or three bytes |
| BurstDetection.TwoByteBurstPasses | subsys/semtech/lr11xx/lr11xx_halo.c:100-107 | a 32-bit burst that passes with a two-byte payload |
| BurstDetection.ThreeByteBurstPasses | subsys/semtech/lr11xx/lr11xx_halo.c:100-107 | a 32-bit burst that passes with a three-byte payload |
| BurstDetection.OneByteBurst | subsys/semtech/lr11xx/lr11xx_halo.c:100-107 | no 32-bit burst passes with a one-byte payload |
| TlvStore.HeaderRoundTrip | utils/tlv/tlv.c:15-27 | a header survives its bytes |
| TlvStore.HeaderBytesRoundTrip | utils/tlv/tlv.c:15-27 | any four bytes survive being a header |
| TlvStore.RecordLayout | utils/tlv/tlv.c:21-27 | byte by byte: type most significant byte first, padding, size modulo 256, data, 0xFF up to a word |
| TlvStore.ReadExactly | utils/tlv/tlv.c:57-89 | on arbitrary storage: each status exactly by the first header of the type, the bytes it announces and the end of the region |
| TlvStore.Tlv.Write | utils/tlv/tlv_ram_storage_impl.c:9-14 | the given span, and only it, is overwritten, and recorded as programmed |
| TlvStore.Tlv.Read | utils/tlv/tlv_ram_storage_impl.c:15-20 | the bytes read, inside the bounds the caller names |
| TlvStore.Tlv.Erase | utils/tlv/tlv_ram_storage_impl.c:22-27 | the given span, and only it, becomes zero |
| TlvStore.Tlv.Lookup | utils/tlv/tlv.c:29-55 | first matching header on arbitrary storage bytes; terminates, no 32-bit overflow, no read outside the region |
| TlvStore.Tlv.ReadValue | utils/tlv/tlv.c:57-89 | status and data on arbitrary storage bytes; terminates, no 32-bit overflow, no read outside the region |
| TlvStore.Tlv.GetNextFreeOffset | utils/tlv/tlv.c:91-112 | the walk ends at the first free header or at the end of the region, and its furthest read ends past the region by exactly `PastEnd` bytes |
| TlvStore.Tlv.WriteValue | utils/tlv/tlv.c:114-155 | header and padded data overwrite one span, word by word, or nothing changes and nothing is programmed; storage is needed only as far as the walk reads |
| TlvStore.NoRoomExactly | utils/tlv/tlv.c:120-124 | the capacity test refuses exactly a record that does not fit, unless its 32-bit sum wraps, and then none |
| TlvStore.Tlv.WriteChunks | utils/tlv/tlv.c:137-153 | the chunk loop writes the data and its padding |
| TlvStore.Tlv.ReadStartMarker | utils/tlv/tlv.c:157-166 | the marker, or the error for a wrong size |
| TlvStore.Tlv.WriteStartMarker | utils/tlv/tlv.c:168-177 | the marker alone is overwritten, or nothing |
| TlvLog.LookupAgrees | utils/tlv/tlv.c:29-55 | the reader finds the header of the earliest entry of the type in the log |
| TlvLog.ReadAgrees | utils/tlv/tlv.c:57-89 | the reader returns the first n bytes of that entry with its padding, and the memory error exactly beyond them |
| TlvLog.FreeAgrees | utils/tlv/tlv.c:91-112 | the free-space walk stops where the log ends |
| TlvLog.PastEndExactly | utils/tlv/tlv.c:96-102 | the free-space walk reads past the region if and only if the log leaves less than four bytes, and then as far as a header there reaches |
| TlvLog.WalkableExactly | utils/tlv/tlv.c:96-102 | the next write reads inside the storage if and only if four bytes follow the log in it |
| TlvLog.FullRegionReadsPastEnd | utils/tlv/tlv.c:96-102 | a region filled by one record: the walk reads the four bytes after it |
| TlvLog.WriteAgrees | utils/tlv/tlv.c:114-155 | a write is accepted exactly if its record fits behind the log, and then appends it |
| TlvLog.RunHoldsLog | utils/tlv/tlv.c:114-155 | after any run of writes the region holds the log of the accepted ones |
| TlvLog.StoreAgreesWithLog | utils/tlv/tlv.c:29-155 | after any run of writes on an erased region lookup and read answer from the earliest accepted write, or no data |
| TlvLog.WriteKeeps | utils/tlv/tlv.c:114-155 | a write changes no byte of the log, of the start marker or past the region |
| TlvLog.WrittenBytesStay | utils/tlv/tlv.c:114-155 | no run changes the value of a byte once written |
| TlvLog.NotKept | utils/tlv/tlv.c:104-107 | sizes 0 and above 255 and type 0xFFFF are not seen by the free-space walk as written |
| TlvLog.KeptExactly | utils/tlv/tlv.c:91-155 | in every log an accepted write is stepped over by the next one if and only if its size is 1..255 and its type is not 0xFFFF |
| TlvProgramming.RunProgramsWords | utils/tlv/tlv.c:91-155 | a run of writes programs the words behind the log one after another, each once, up to where the log then ends, and nothing else |
| TlvProgramming.ProgrammedOnce | utils/tlv/tlv.c:91-155 | each byte of an accepted entry is programmed exactly once in a run, and no byte of the earlier log, the start marker, the free space or past the region at all |
| TlvProgramming.EntryAligned | utils/tlv/tlv.c:125-153 | every entry starts a whole number of words after the start marker |
| TlvProgramming.WriteEach | utils/tlv/tlv.c:91-155 | the same of a run on the store object: its record of programmed spans, its log and its other bytes |
| TlvProgramming.WriteOnceExactly | utils/tlv/tlv.c:104-107 | in every log a value and the one after it are programmed without overlap if and only if its size is 1..255 and its type is not 0xFFFF |
| MfgImage.SidMfgOutBin.constructor | tools/provision/sid_provision/run.py:942-958 | the file's bytes, extended with 0xFF up to the TLV region |
| MfgImage.SidMfgOutBin.RemoveValueWithTag | tools/provision/sid_provision/run.py:969-978 | the walk deletes the first record it sees with the tag |
| MfgImage.SidMfgOutBin.Write | tools/provision/sid_provision/run.py:987-1003 | outcome and image after every object in turn, both exceptions included |
| MfgImage.RoundUpFormula | tools/provision/sid_provision/run.py:974 | the integer formula rounds up to the word size |
| MfgImage.MakeTlv | tools/provision/sid_provision/run.py:980-985 | a record is as long as its value and header rounded up to a word |
| MfgImage.TlvLayout | tools/provision/sid_provision/run.py:980-985 | byte by byte: tag and length in the byte order of the image, value, 0xFF up to a word |
| MfgImage.OutcomeExactly | tools/provision/sid_provision/run.py:987-1003 | which objects are refused and with which exception |
| MfgImage.WriteInOrder | tools/provision/sid_provision/run.py:987-1003 | each object is written to what those before it left, and the first refusal ends the write |
| MfgRegion.EncodeInjective | tools/provision/sid_provision/run.py:980-985 | two lists of records have the same bytes only if they are the same list |
| MfgRegion.RemoveRefines | tools/provision/sid_provision/run.py:969-978 | on a well-formed region removal deletes one record of the list and keeps the others' bytes and order |
| MfgRegion.WriteAllRefines | tools/provision/sid_provision/run.py:987-1003 | a whole write is the same write on header and records |
| MfgRegion.PutIsUpdate | tools/provision/sid_provision/run.py:990-993 | one step keeps tags unique exactly when the walk does not miss a bare last record, and then is a map update that keeps the other records in order |
| MfgRewrite.WriteIsRewritten | tools/provision/sid_provision/run.py:987-1003 | a write removes its tags wherever they are and appends its values in order; a bare last record of its first tag stays, and only then tags are repeated |
| MfgRewrite.WriteIsMapUpdate | tools/provision/sid_provision/run.py:987-1003 | a write overrides the map of tags to values if and only if no bare last record hides a non-empty first value |
| MfgRewrite.WriteImage | tools/provision/sid_provision/run.py:987-1003 | on every well-formed image a write succeeds, keeps unrelated records in place and in order and touches the header only in its own fields |
| MfgRewrite.SecondWriteOfRecords | tools/provision/sid_provision/run.py:969-1003 | n remove-then-append steps rotate the records back into place if and only if a condition on the last record and the first value holds |
| MfgRewrite.SecondWriteOfHeader | tools/provision/sid_provision/run.py:994-1000 | header fields, overlapping ones too, come out the same the second time |
| MfgRewrite.LastFieldWins | tools/provision/sid_provision/run.py:994-1000 | a header byte is that of the last field written over it |
| MfgRewrite.WriteTwice | tools/provision/sid_provision/run.py:969-1003 | writing twice gives a byte-identical image if and only if: where a bare last record of the first tag was missed, the value to replace it is empty too; elsewhere, the write is not one bare value alone |
| MfgRewrite.EmptyValueTwice | tools/provision/sid_provision/run.py:969-1003 | one empty value written twice to an image without records stands there twice |
| MfgRewrite.RecordsAligned | tools/provision/sid_provision/run.py:980-985 | every record starts on a word boundary |
| CertChain.SplitChain | tools/provision/sid_provision/run.py:256-274 | on success six certificates whose bytes are the input, the first serial 32 bytes, later ones four or with expansion as many as their own bytes say; without expansion success exactly for 52 + 6·(key + 64) bytes |
| CertChain.SplitJoins | tools/provision/sid_provision/run.py:244-274 | what a chain splits into concatenates to exactly the input and is well formed |
| CertChain.JoinSplits | tools/provision/sid_provision/run.py:244-274 | well-formed parts concatenated split back into those parts |
| CertChain.SplitExactly | tools/provision/sid_provision/run.py:244-274 | a chain splits into given parts if and only if it is their concatenation and they are well formed |
| CertChain.SerialKinds | tools/provision/sid_provision/run.py:236-242 | a certificate of any authority but the device is well formed exactly if its serial has four bytes, or is 0xB-prefixed and as long as it says |
| CertChain.SplitSizes | tools/provision/sid_provision/run.py:236-274 | the sizes of all parts of a chain that splits, told by its own bytes |
| CertChain.SplitByLength | tools/provision/sid_provision/run.py:256-274 | without expansion the length alone decides between success and the two errors |
| CertChain.RefusedExactly | tools/provision/sid_provision/run.py:250-274 | longer than expected: a proper prefix splits; shorter: no prefix does |
| Radio.SetFrequency | subsys/semtech/lr11xx/lr11xx_radio.c:565-632 | of the context only frequency and trace change, the frequency exactly on success outside a scan |
| Radio.FreqBand | subsys/semtech/lr11xx/lr11xx_radio.c:2247-2257 | a band that holds the frequency, or none if none does |
| Radio.Init | subsys/semtech/lr11xx/lr11xx_radio.c:1579-1790 | always ends a scan, keeps the cached frequency and a pending simulation |
| RadioInit.BootStep | subsys/semtech/lr11xx/lr11xx_radio.c:1579-1705 | which answers let init get past the clocks, and the image calibration it leaves |
| RadioInit.InitImage | subsys/semtech/lr11xx/lr11xx_radio.c:1617-1695 | the image calibration after init: kept without a reset, else that of the start or the general one |
| RadioInit.InitReady | subsys/semtech/lr11xx/lr11xx_radio.c:1579-1790 | with good answers the radio is in standby |
| Radio.IrqProcess | subsys/semtech/lr11xx/lr11xx_radio.c:279-563 | in a scan only the simulation moves; outside one modem, mask, frequency and calibration stay |
| RadioDriver.Driver.IrqProcess | subsys/semtech/lr11xx/lr11xx_radio.c:279-563 | outside a scan and without a simulated timeout each event is reported if and only if the flags call for it; the handler ends by switching the driver's interrupts on again unless the radio sleeps; in a scan it sends nothing |
| RadioEvents.FlagsSay | subsys/semtech/lr11xx/lr11xx_radio.c:341-491 | event by event: exactly the flags, modem, state and exit mode for which it is chosen, and when a transmission is begun instead |
| RadioEvents.EventReported | subsys/semtech/lr11xx/lr11xx_radio.c:279-563 | without a simulated timeout: the history grows by an event if and only if both reads succeed and the flags call for it, and by nothing if none is called for |
| RadioEvents.SimulatedReport | subsys/semtech/lr11xx/lr11xx_radio.c:285-312 | a simulated transmission is reported as done and a simulated window as timed out, and a deferred window is then pending as one |
| RadioEvents.SimulatedThenChip | subsys/semtech/lr11xx/lr11xx_radio.c:279-563 | with a simulated timeout pending: its report, then in a scan nothing, else the event the flags call for, nothing for a transmission, or the same report again |
| RadioEvents.SimulatedTalk | subsys/semtech/lr11xx/lr11xx_radio.c:291-303 | under listen-before-talk a simulated window that expires outside a scan tells the chip to transmit and reports nothing |
| RadioEvents.SimulatedTalkInScan | subsys/semtech/lr11xx/lr11xx_radio.c:291-303 | in a scan that transmission is simulated too, unless the deferred window has the timer |
| RadioEvents.FlagSent | subsys/semtech/lr11xx/lr11xx_radio.c:341-406 | flags of transmission, errors and timeouts tell the chip nothing, except that listen-before-talk transmits |
| RadioEvents.ModemFlagSent | subsys/semtech/lr11xx/lr11xx_radio.c:391-530 | a packet is read, a sync word handled, a sensed carrier answered with standby, a finished scan with the packet type and a busy radio |
| RadioEvents.InterruptsBack | subsys/semtech/lr11xx/lr11xx_radio.c:557-562 | the last command of the handler switches the interrupts of the driver's mask on, unless the radio sleeps |
| RadioCommands.WaveSent | subsys/semtech/lr11xx/lr11xx_radio.c:987-1035 | success exactly in standby with good answers; then frequency, amplifier, standby and carrier were sent, in this order |
| RadioCommands.InitSent | subsys/semtech/lr11xx/lr11xx_radio.c:1579-1790 | with good answers every command of init in order, and standby, LoRa mask and amplifier settings afterwards |
| RadioCommands.LoraSyncSent | subsys/semtech/lr11xx/lr11xx_radio_lora.c:207-235 | the word 0x1424 is sent as 0x12, every other one as 0x34 |
| RadioInit.SilentFailure | subsys/semtech/lr11xx/lr11xx_radio.c:1717-1721 | a standby command that fails ends init without an error and without standby |
| RadioTuning.FrequencySent | subsys/semtech/lr11xx/lr11xx_radio.c:565-632 | when a frequency is accepted, what the chip is then told, and which refusal means what |
| RadioTuning.Step | subsys/semtech/lr11xx/lr11xx_radio.c:565-632 | after any call cache and chip have the same frequency if and only if it tuned the chip, or they had it and it neither failed to tune nor reset a tuned radio |
| RadioTuning.TunedInRunExactly | subsys/semtech/lr11xx/lr11xx_radio.c:565-632 | over any run of calls and commands of the location modem the cached frequency of a tuned radio is the chip's if and only if no failed tuning, reset or foreign tuning followed the last that succeeded |
| RadioTuning.ForeignTuningStays | subsys/semtech/lr11xx/lr11xx_radio.c:1802-1890 | a frequency set by the location modem in a scan outlasts the release, and the cached one stays |
| RadioDriver.Driver.SetFrequency | subsys/semtech/lr11xx/lr11xx_radio.c:565-632 | outside a scan success exactly in standby, for a frequency in a band and with good answers, and the chip is then told this frequency, after a calibration if the band changes; it is cached on success only; the agreement with the image calibration is kept if and only if the call does not calibrate a new band and then fail to tune |
| RadioDriver.Driver.SetTxPower | subsys/semtech/lr11xx/lr11xx_radio.c:678-721 | nothing happens in a scan; success outside one means standby and the new amplifier settings cached; the state stays; exactly the answers for success, and the amplifier commands then sent |
| RadioDriver.Driver.SetParams | subsys/semtech/lr11xx/lr11xx_radio_fsk.c:443-466 | nothing happens in a scan; one command is sent, of modulation or of packets by the parameter, and the cache keeps the other parameters and takes the new one on success only |
| RadioDriver.Driver.StartCarrierSense | subsys/semtech/lr11xx/lr11xx_radio.c:1157-1250 | refused without effect in a scan; success means an FSK modem in reception with the exit mode set, failure that the exit mode stays; the chip is then told to receive with all interrupts on |
| RadioDriver.Driver.TxContinuousWave | subsys/semtech/lr11xx/lr11xx_radio.c:987-1035 | refused without effect in a scan; success means standby before, transmission after, and the frequency cached; exactly the answers for success, and frequency, amplifier, standby and carrier then sent in order |
| RadioDriver.Driver.StartContinuousRx | subsys/semtech/lr11xx/lr11xx_radio.c:1252-1300 | refused without effect in a scan; success means reception; exactly the answers for success, and the commands then sent |
| RadioDriver.Driver.SetRxDuty | subsys/semtech/lr11xx/lr11xx_radio.c:1302-1345 | refused without effect in a scan; success means duty-cycled reception with both times positive; exactly the answers for success, and the command then sent |
| RadioDriver.Driver.LoraStartCad | subsys/semtech/lr11xx/lr11xx_radio.c:1347-1378 | refused without effect in a scan; success means activity detection; exactly the answers for success, and the command then sent |
| RadioDriver.Driver.FreqBand | subsys/semtech/lr11xx/lr11xx_radio.c:2247-2257 | the search loop finds the first band |
| RadioDriver.Driver.GoSleep | subsys/semtech/lr11xx/lr11xx_radio.c:763-830 | nothing happens in a scan; success outside one means sleep; exactly the answers for success, and the sleep command then sent |
| RadioDriver.Driver.GoStandby | subsys/semtech/lr11xx/lr11xx_radio.c:832-902 | nothing happens in a scan; success outside one means standby; exactly the answers for success, a sleeping radio is woken first, and the standby command then sent |
| RadioDriver.Driver.StartTx | subsys/semtech/lr11xx/lr11xx_radio.c:936-985 | in a scan no command is sent and success means a pending simulated transmission with its timer newly armed; outside one success means transmission; exactly the answers for success, and the transmit command then sent |
| RadioDriver.Driver.StartRx | subsys/semtech/lr11xx/lr11xx_radio.c:1038-1139 | in a scan no command is sent, success means a pending simulated window with its timer newly armed, and a window asked for while one runs is deferred and refused; outside one success means reception; exactly the answers for success, and the commands then sent |
| RadioDriver.Driver.Init | subsys/semtech/lr11xx/lr11xx_radio.c:1579-1790 | a scan ends, frequency and pending simulation stay, and the image calibration afterwards is told by the answers drawn |
| RadioDriver.Driver.HoldScan | subsys/semtech/lr11xx/lr11xx_radio.c:1826-1867 | success means the radio neither transmitted nor received and the scan has begun, refusal that the state stays; the configuration stays either way; at most a pending interrupt is cleared in the chip |
| RadioDriver.Driver.ReleaseScan | subsys/semtech/lr11xx/lr11xx_radio.c:1802-1890 | standby, with the configuration kept and each part of it that is sent successfully back in the chip; nothing outside a scan |
| RadioDriver.Driver.SetModemMode | subsys/semtech/lr11xx/lr11xx_radio.c:2202-2231 | success outside a scan means the modem is set, and mask and modem keep fitting even on failure; packet type and interrupts of that modem are then sent |
| RadioDriver.Driver.Handle | subsys/semtech/lr11xx/lr11xx_radio.c:279-2283 | what any one call keeps, on the object: silence in a scan, no scan but by a hold, mask and modem, and the account of simulated timeouts |
| RadioDriver.Driver.RunCalls | subsys/semtech/lr11xx/lr11xx_radio.c:279-2283 | any calls on the object are a run; in a scan they leave trace, state and configuration fields alone, and simulated reports never exceed armings |
| RadioDriver.Driver.ScanSession | subsys/semtech/lr11xx/lr11xx_radio.c:1826-1890 | hold, any calls, release on the object: granted only to a radio neither in TX nor in RX state, all configuration fields as before, and back in the chip if no command failed; a refusal keeps state and configuration |
| RadioRuns.ScanEnds | subsys/semtech/lr11xx/lr11xx_radio.c:1579-1589 | a scan is ended by release and init, always, and by nothing else |
| RadioRuns.ScanQuiet | subsys/semtech/lr11xx/lr11xx_radio.c:279-318 | over any run inside a scan no command is sent and state, modem, mask, frequency, amplifier and settings stay |
| RadioRuns.HoldGranted | subsys/semtech/lr11xx/lr11xx_radio.c:1826-1867 | the lock is granted if and only if the radio neither transmits nor receives and the pin can be read and cleared; a refusal keeps the state |
| RadioRuns.ScanBegins | subsys/semtech/lr11xx/lr11xx_radio.c:1826-1867 | nothing but a hold outside transmission and reception begins a scan |
| RadioRuns.ScanIsHeld | subsys/semtech/lr11xx/lr11xx_radio.c:1826-1890 | a run that ends in a scan has been quiet since a hold that found the radio neither in TX nor in RX state |
| RadioRuns.ReleasePutsBack | subsys/semtech/lr11xx/lr11xx_radio.c:1802-1818 | each of the two commands that succeeds puts its part of the configuration back into the chip |
| RadioRuns.HoldReleaseTransparent | subsys/semtech/lr11xx/lr11xx_radio.c:1802-1890 | hold, any calls and any commands of the location modem, release: configuration as before, and back in the chip |
| RadioShared.ScanIsTheirs | subsys/semtech/lr11xx/lr11xx_radio.c:1826-1890 | in a scan the chip gets the commands of the location modem, all and no others, whatever is called meanwhile, and state and configuration stay |
| RadioRuns.MaskStep | subsys/semtech/lr11xx/lr11xx_radio.c:2202-2231 | every call keeps mask and modem together, if and only if it is not an init of an FSK radio with a bad answer up to the clocks |
| RadioRuns.MaskStranded | subsys/semtech/lr11xx/lr11xx_radio.c:1579-1606 | such an init: a LoRa modem with the mask of FSK |
| RadioRuns.MaskInRun | subsys/semtech/lr11xx/lr11xx_radio.c:1579-1690 | without such an init mask and modem fit throughout a run |
| RadioSimulation.Step | subsys/semtech/lr11xx/lr11xx_radio.c:254-312 | each step loses a simulated timeout, or reports one twice, exactly under a condition on the state before it |
| RadioSimulation.RunAccounts | subsys/semtech/lr11xx/lr11xx_radio.c:254-312 | over a run armings are reports, the pending one and the losses, and repetitions are counted exactly |
| RadioSimulation.SimulatedEventsConserved | subsys/semtech/lr11xx/lr11xx_radio.c:254-312 | in every run reports by simulation and a pending timeout never exceed armings, with equality if and only if no start overwrote an expiry and listen-before-talk swallowed none |
| RadioSimulation.ReportedOnce | subsys/semtech/lr11xx/lr11xx_radio.c:285-318 | no event is reported twice in a run if and only if no handler call found a timeout pending outside a scan and no flag to replace it |
| RadioSimulation.ExpiryAfterRelease | subsys/semtech/lr11xx/lr11xx_radio.c:552-555 | the handler run for the timer alone outside a scan always reports a second time |
| RadioSimulation.OneArmingTwoReports | subsys/semtech/lr11xx/lr11xx_radio.c:552-555 | a run of five calls with one arming and two reports |
| RadioCalibration.OneBand | subsys/semtech/lr11xx/lr11xx_radio.c:119-122 | a frequency lies in at most one band, and zero in none |
| RadioCalibration.BandsInMegahertz | subsys/semtech/lr11xx/lr11xx_radio.c:119-122 | the six intervals of frequencies that can be tuned to |
| RadioCalibration.Step | subsys/semtech/lr11xx/lr11xx_radio.c:565-632 | whatever bands the start-up and the general calibration cover, a call keeps cache and calibration in agreement if and only if it neither calibrates a new band and fails to tune nor resets a tuned radio to a calibration that does not cover its band |
| RadioCalibration.MoveStep | subsys/semtech/lr11xx/lr11xx_radio.c:565-632 | the same of a command of the location modem in a scan: it breaks the agreement if and only if it succeeds and replaces the image by one that does not cover the band |
| RadioCalibration.AgreesInRun | subsys/semtech/lr11xx/lr11xx_radio.c:565-632 | cache and calibration agree throughout a run of calls and commands of the location modem in which no move strands them |
| RadioCalibration.CalibratedForItsBand | subsys/semtech/lr11xx/lr11xx_radio.c:565-632 | after one init, if commands succeed and the location modem leaves the image alone, the last image calibration of a tuned radio was made for the band it is tuned to |
| RadioCalibration.ForeignCalibrationStays | subsys/semtech/lr11xx/lr11xx_radio.c:1802-1890 | an image calibration sent in a scan outlasts the release, which agrees with the cached frequency exactly if it was for its band |
| RadioCalibration.ReinitReplacesCalibration | subsys/semtech/lr11xx/lr11xx_radio.c:1617-1695 | an init of a tuned radio keeps the frequency and replaces the calibration for its band exactly if the reset is reached and succeeds, by the general one exactly if that is reached too |
| RadioCalibration.TuningInBandSkips | subsys/semtech/lr11xx/lr11xx_radio.c:580-596 | tuning within the band of the cached frequency leaves the image as it is |
| RadioCalibration.TunedUncalibrated | subsys/semtech/lr11xx/lr11xx_radio.c:565-632 | a run from the zeroed context, all answers good, that ends tuned without a calibration for the band since the reset |
| GnssPayload.FirstToken | subsys/semtech/lr1110_location/sid_pal_gnss_wifi_impl.c:194 | the first token is in 2..31 |
| GnssPayload.Rotate | subsys/semtech/lr1110_location/sid_pal_gnss_wifi_impl.c:55-61 | rotation stays in 2..31 and always changes the token |
| GnssPayload.RotatesAround | subsys/semtech/lr1110_location/sid_pal_gnss_wifi_impl.c:55-61 | n rotations go n tokens around the thirty, so no two groups in thirty share one |
| GnssPayload.Group.GetScanPayload | subsys/semtech/lr1110_location/sid_pal_gnss_wifi_impl.c:275-320 | success exactly if all records fit, and then the records in reverse order followed by zeros |
| GnssPayload.DecodePayload | subsys/semtech/lr1110_location/sid_pal_gnss_wifi_impl.c:285-317 | a reader gets every scan back, or nothing exactly if one has 255 bytes |
| GnssPayload.EntryAt | subsys/semtech/lr1110_location/sid_pal_gnss_wifi_impl.c:63-69 | reverse order, one token, and the end bit on the last record read only |
| GnssPayload.GroupDecodes | subsys/semtech/lr1110_location/sid_pal_gnss_wifi_impl.c:275-320 | every group that fits decodes |
| GnssPayload.PayloadLength | subsys/semtech/lr1110_location/sid_pal_gnss_wifi_impl.c:285-317 | the size is the sum of three plus each message |
| GnssPayload.RecordLayout | subsys/semtech/lr1110_location/sid_pal_gnss_wifi_impl.c:63-69 | byte by byte: tag 0x53, length, end bit over token, message |
| ScratchBuffer.Table.Init | samples/sid_end_device/src/sbdt/scratch_buffer.c:22-27 | ids only are reset |
| ScratchBuffer.Table.Deinit | samples/sid_end_device/src/sbdt/scratch_buffer.c:29-40 | slots in use are emptied and their blocks freed |
| ScratchBuffer.Table.Create | samples/sid_end_device/src/sbdt/scratch_buffer.c:42-71 | one pass finds the free slot and the duplicate; new table, heap and result |
| ScratchBuffer.Table.Remove | samples/sid_end_device/src/sbdt/scratch_buffer.c:73-93 | new table and heap |
| ScratchBuffer.CreateIsInsert | samples/sid_end_device/src/sbdt/scratch_buffer.c:42-71 | refused without effect exactly for the reserved id, a file with a slot or a full table; else the file gets a slot, even if the allocation failed |
| ScratchBuffer.RemoveIsErase | samples/sid_end_device/src/sbdt/scratch_buffer.c:73-93 | the file and its block go, the reserved id removes nothing |
| ScratchBuffer.TableIsMap | samples/sid_end_device/src/sbdt/scratch_buffer.c:22-93 | over every run from an empty table it is a bounded map, and the live blocks are exactly those in slots |
| ScratchBuffer.InitSoundIff | samples/sid_end_device/src/sbdt/scratch_buffer.c:22-27 | init is sound if and only if nothing is live |
| ScratchBuffer.InitLeaks | samples/sid_end_device/src/sbdt/scratch_buffer.c:22-71 | a slot in use, an init and a creation: a block that is live and in no slot |

## Left out

- Interleavings inside one radio call: the code protects only parts of `start_tx`, `start_rx` and `hold_scan`, so calls are taken as serialised, and a callback that re-enters the driver is a later call.
- `sid_pal_radio_rssi`, `random`, `is_channel_free`, `get_chan_noise`, `gnss_prescan` and `gnss_postscan`: not part of the model; the first has no scan guard and the last two belong to the scan.
- The command by which firmware too old for sync words is told the network instead: the same byte in another command.
- GPIO, LED and delay calls, the mitigations, register commands inside one packet read, and SPI: one answer or one command stands for each group.
- The error codes of the board's pin set-up in `radio_init`, which are several and are one here, and null parameter pointers of the FSK setters.
- Branches of `irq_process` for a command error during a scan: the handler has returned before them.
- FskReceive.ProcessSyncWordDetected: supposes that the chip does receive more than four bytes; the code waits for that without end.
- Which bands the chip's start-up and general calibrations cover: a parameter.
- RSSI and SNR fields of a received packet, data-rate tables and time on air.
- Claims that the 0xABBA marker proves a fresh sync event: payload bytes can equal it.
- TlvStore.Tlv.WriteValue: needs storage as far as the walk reads, and the end of the new record below 2^32; where the sum wraps, the code would write outside its storage.
- The flash back end of the TLV store and its error codes, and null contexts.
- File handling, Intel HEX, NVM3 and S37 output, the page mode without TLV records, and the private-key check of the provisioning tool.
- Contents of scratch buffers (zeroed by the code) and the addresses the heap chooses, which are parameters.
- The SX126x and LR1110 drivers, which repeat these shapes without the scan lock, and the application, shell and CI code.
