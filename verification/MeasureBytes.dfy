/**
 The bytes pkg/measure-config/src/measurefs.go leaves in the event log for one file, from its
 path and what is found there.
 */
module MeasureBytes {
  import opened EventLog
  import opened MeasureConfig

  /** Four bytes of these values, the first the lowest. */
  lemma LowestFirst(v: uint32)
    ensures var s := Le32(v);
            s[0] as int + s[1] as int * 256 + s[2] as int * 65536 + s[3] as int * 16777216 == v as int
  {
  }

  lemma LowestFirst16(v: uint16)
    ensures Le16(v)[0] as int + Le16(v)[1] as int * 256 == v as int
  {
  }

  /** What stands in front of every digest: PCR 14, event type 0x80000007, one digest, algorithm 11. */
  const FRONT: seq<byte> := [14, 0, 0, 0, 7, 0, 0, 128, 1, 0, 0, 0, 11, 0]

  lemma FrontBytes()
    ensures Le32(CONFIG_PCR_INDEX) + Le32(EV_EFI_ACTION) + Le32(1) + Le16(EV_ALG_SHA256) == FRONT
  {
  }

  lemma OneDigest(d: TpmtHa)
    ensures EncodeDigests(TpmlDigestValues(1, [d])) == Le32(1) + Le16(d.hashAlg) + d.digestData
  {
    assert ConcatMap(EncodeHa, [d]) == EncodeHa(d) + ConcatMap(EncodeHa, [d][1..]);
    assert [d][1..] == [];
    assert Le32(1) + (EncodeHa(d) + []) == Le32(1) + Le16(d.hashAlg) + d.digestData;
  }

  /** An event in the log: the fixed front, the hash of the data, its length and the data itself. */
  lemma EventBytes(sha: Sha256, data: string)
    requires |data| < 0x1_0000_0000
    ensures EncodeEvent(EventOf(sha, data)) == FRONT + sha(ToBytes(data)) + Le32(|data| as uint32) + ToBytes(data)
  {
    OneDigest(TpmtHa(EV_ALG_SHA256, sha(ToBytes(data))));
    FrontBytes();
    Regrouped(Le32(CONFIG_PCR_INDEX), Le32(EV_EFI_ACTION), Le32(1), Le16(EV_ALG_SHA256), sha(ToBytes(data)),
              Le32(|data| as uint32), ToBytes(data));
  }

  lemma Regrouped<T>(a: seq<T>, b: seq<T>, c: seq<T>, d: seq<T>, x: seq<T>, y: seq<T>, z: seq<T>)
    ensures a + b + (c + d + x) + y + z == (a + b + c + d) + x + y + z
  {
  }

  /** What is said of a file behind its name: absent, present, or present with this content. */
  function Said(lists: Lists, disk: Disk, p: string): string
    requires Readable(lists, disk, p)
  {
    if p !in disk.files then " exist:false"
    else if p in lists.excluded then " exist:true"
    else " exist:true content-hash:" + disk.hashOf[p]
  }

  /** A file is recorded by its path, or by the name behind the last slash if the path has more than 512 bytes. */
  lemma RecordedText(lists: Lists, disk: Disk, dir: string, name: string)
    requires name != "" && '/' !in name && Readable(lists, disk, dir + "/" + name)
    ensures var p := dir + "/" + name;
            DataOf(lists, disk, p) == "file:" + (if |dir| + 1 + |name| > 512 then name else p) + Said(lists, disk, p)
  {
    var p := dir + "/" + name;
    assert p[|p| - 1] == name[|name| - 1] && name[|name| - 1] in name;
    BaseName(dir, name);
  }

  /** The files that are always recorded, and those among them whose content is not. */
  lemma ShippedPaths(files: set<string>, p: string)
    ensures p in LISTS.excluded <==>
            || p == "/config/tpm_credential" || p == "/config/device.cert.pem" || p == "/config/device.key.pem"
            || p == "/config/onboard.cert.pem" || p == "/config/onboard.key.pem" || p == "/config/soft_serial"
    ensures p in AllPaths(LISTS, files) <==>
            || p in files || p in LISTS.excluded
            || p == "/config/bootstrap-config.pb" || p == "/config/DevicePortConfig/override.json"
            || p == "/config/GlobalConfig/global.json" || p == "/config/Force-API-V1"
  {
  }

  /** A byte is the character it stands for. */
  lemma BytesAreCharacters(s: string, i: nat)
    requires IsBytes(s) && i < |s|
    ensures ToBytes(s)[i] as int == s[i] as int
  {
  }

  /** Each measurement replaces the register by the hash of what it held and of the hash of the data. */
  lemma ExtendsExactly(sha: Sha256, pcr: Digest, datas: seq<string>, data: string)
    ensures PcrAfter(sha, pcr, []) == pcr
    ensures PcrAfter(sha, pcr, datas + [data]) == sha(PcrAfter(sha, pcr, datas) + sha(ToBytes(data)))
  {
    assert (datas + [data])[..|datas|] == datas;
  }
}
