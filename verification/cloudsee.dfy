/** The binary packets exchanged with the CloudSEE server: a status request for guids, and its response. */
module CloudSee {
  import opened Decimal
  import opened Octets
  import opened Wrappers

  /** Guids are C++ strings, so their characters are bytes. */
  type Guid = s: string | forall k :: 0 <= k < |s| ==> s[k] as int < 0x100

  const DATA_BUFFER_SIZE: nat := 30 * 1024
  const ST_DEVICESERVER: Byte := 0x0a
  const MT_GETDEVICEINFO: Byte := 0x04

  /** htonl and htons followed by memcpy. */
  function Be32(v: Word): (r: seq<Byte>)
    ensures |r| == 4
  {
    var w := v / 0x100;
    [w / 0x100 / 0x100, w / 0x100 % 0x100, w % 0x100, v % 0x100]
  }

  function Be16(v: nat): (r: seq<Byte>)
    ensures |r| == 2
  {
    [v / 0x100 % 0x100, v % 0x100]
  }

  /** memcpy followed by ntohl. */
  function Read32(b: seq<Byte>): Word
    requires |b| == 4
  {
    var b0: int, b1: int, b2: int, b3: int := b[0], b[1], b[2], b[3];
    ((b0 * 0x100 + b1) * 0x100 + b2) * 0x100 + b3
  }

  lemma ReadBe32(v: Word)
    ensures Read32(Be32(v)) == v
  {
  }

  /** The conversions from int to uint32_t and back. */
  function ToWord(v: int): Word {
    v % 0x1_0000_0000
  }

  function ToInt(w: Word): int {
    if w < 0x8000_0000 then w else w - 0x1_0000_0000
  }

  predicate FitsInt(v: int) {
    -0x8000_0000 <= v < 0x8000_0000
  }

  lemma ToIntToWord(v: int)
    requires FitsInt(v)
    ensures ToInt(ToWord(v)) == v
  {
    if v < 0 {
      assert v % 0x1_0000_0000 == v + 0x1_0000_0000;
    }
  }

  // ----- the request -----

  /** Four bytes of group, of which only the first is used, and the number behind it. */
  function Entry(guid: Guid): (r: seq<Byte>)
    requires guid != ""
    ensures |r| == 8
  {
    [guid[0] as int, 0, 0, 0] + Be32(ToWord(Atoi(guid[1..])))
  }

  function Entries(guids: seq<Guid>): (r: seq<Byte>)
    requires "" !in guids
    ensures |r| == 8 * |guids|
  {
    if guids == [] then [] else Entry(guids[0]) + Entries(guids[1..])
  }

  function Head(total: Word, messageId: int, count: Word): (r: seq<Byte>)
    ensures |r| == 12
  {
    Be32(total) + [ST_DEVICESERVER, MT_GETDEVICEINFO] + Be16(messageId % 0x1_0000) + Be32(count)
  }

  function Request(messageId: int, guids: seq<Guid>): seq<Byte>
    requires "" !in guids && |guids| <= 3838
  {
    Head(12 + 8 * |guids|, messageId, |guids|) + Entries(guids)
  }

  method WriteEntry(request: array<Byte>, at: nat, guid: Guid)
    requires guid != "" && at + 8 <= request.Length
    modifies request
    ensures request[..at + 8] == old(request[..at]) + Entry(guid)
  {
    hide Be32, Atoi;
    Memcpy(request, at, [guid[0] as int, 0, 0, 0]);
    Memcpy(request, at + 4, Be32(ToWord(Atoi(guid[1..]))));
  }

  method WriteHead(messageId: int, count: Word, request: array<Byte>)
    requires request.Length >= 12
    modifies request
    ensures request[..12] == Head(0, messageId, count)
  {
    hide Be32, Be16;
    Memcpy(request, 0, Be32(0) + [ST_DEVICESERVER, MT_GETDEVICEINFO]);
    Memcpy(request, 6, Be16(messageId % 0x1_0000));
    Memcpy(request, 8, Be32(count));
  }

  lemma HeadCut(total: Word, messageId: int, count: Word, rest: seq<Byte>)
    ensures Head(total, messageId, count) + rest == Be32(total) + (Head(total, messageId, count) + rest)[4..]
    ensures (Head(total, messageId, count) + rest)[4..] == (Head(0, messageId, count) + rest)[4..]
  {
    hide Be32, Be16;
  }

  /** The length goes over the first four bytes, and a zero byte behind the last. */
  method WriteLength(request: array<Byte>, byteCount: Word, messageId: int, count: Word, rest: seq<Byte>)
    requires 12 <= byteCount < request.Length && request[..byteCount] == Head(0, messageId, count) + rest
    modifies request
    ensures request[..byteCount] == Head(byteCount, messageId, count) + rest && request[byteCount] == 0
  {
    hide Head;
    HeadCut(0, messageId, count, rest);
    HeadCut(byteCount, messageId, count, rest);
    Memcpy(request, 0, Be32(byteCount));
    assert request[..byteCount] == Be32(byteCount) + (Head(0, messageId, count) + rest)[4..];
    request[byteCount] := 0;
  }

  /**
   * The packet is written entry by entry, its length last; at(0) throws for an empty guid, and the result is None.
   * With more than 3838 guids the last entry does not fit the buffer.
   */
  method CreateRequestDeviceInfo(messageId: int, guids: seq<Guid>, request: array<Byte>) returns (len: Option<nat>)
    requires request.Length == DATA_BUFFER_SIZE && |guids| <= 3838
    modifies request
    ensures len.None? <==> "" in guids
    ensures len.Some? ==> len.value == 12 + 8 * |guids| && request[..len.value] == Request(messageId, guids)
    ensures len.Some? ==> request[len.value] == 0
  {
    hide Head, Entry;
    WriteHead(messageId, |guids|, request);
    var byteCount := 12;
    var i := 0;
    while i < |guids|
      invariant 0 <= i <= |guids| && byteCount == 12 + 8 * i && "" !in guids[..i]
      invariant request[..byteCount] == Head(0, messageId, |guids|) + Entries(guids[..i])
    {
      if guids[i] == "" {
        return None;
      }
      WriteEntry(request, byteCount, guids[i]);
      EntriesAppend(guids[..i], guids[i]);
      assert guids[..i + 1] == guids[..i] + [guids[i]];
      byteCount := byteCount + 8;
      i := i + 1;
    }
    assert guids[..i] == guids;
    WriteLength(request, byteCount, messageId, |guids|, Entries(guids));
    len := Some(byteCount);
  }

  lemma {:induction false} EntriesAppend(guids: seq<Guid>, guid: Guid)
    requires "" !in guids && guid != ""
    ensures Entries(guids + [guid]) == Entries(guids) + Entry(guid)
  {
    hide Entry;
    if guids == [] {
      assert [guid][1..] == [];
      assert Entries([guid]) == Entry(guid) + Entries([]);
    } else {
      EntriesAppend(guids[1..], guid);
      assert (guids + [guid])[1..] == guids[1..] + [guid];
    }
  }

  lemma BytesOfWord(v: Word)
    ensures
      var b: seq<int> := Be32(v);
      |b| == 4 && b[0] * 0x100_0000 + b[1] * 0x1_0000 + b[2] * 0x100 + b[3] == v
  {
  }

  lemma HeadBytes(total: Word, messageId: int, count: Word)
    ensures
      var b: seq<int> := Head(total, messageId, count);
      && |b| == 12
      && b[0] * 0x100_0000 + b[1] * 0x1_0000 + b[2] * 0x100 + b[3] == total
      && b[4] == 10 && b[5] == 4 && b[6] * 0x100 + b[7] == messageId % 0x1_0000
      && b[8] * 0x100_0000 + b[9] * 0x1_0000 + b[10] * 0x100 + b[11] == count
  {
    hide Be32;
    BytesOfWord(total);
    BytesOfWord(count);
  }

  /** The head of a request byte by byte, most significant byte first: its length, 10, 4, message id, guid count. */
  lemma RequestFields(messageId: int, guids: seq<Guid>)
    requires "" !in guids && |guids| <= 3838
    ensures
      var b: seq<int> := Request(messageId, guids);
      && |b| == 12 + 8 * |guids| < 30 * 1024
      && b[0] * 0x100_0000 + b[1] * 0x1_0000 + b[2] * 0x100 + b[3] == |b|
      && b[4] == 10 && b[5] == 4 && b[6] * 0x100 + b[7] == messageId % 0x1_0000
      && b[8] * 0x100_0000 + b[9] * 0x1_0000 + b[10] * 0x100 + b[11] == |guids|
  {
    hide Head, Entries;
    HeadBytes(12 + 8 * |guids|, messageId, |guids|);
  }

  lemma {:induction false} EntriesAt(guids: seq<Guid>, k: nat)
    requires "" !in guids && k < |guids|
    ensures Entries(guids)[8 * k..8 * k + 8] == Entry(guids[k])
  {
    hide Entry;
    if k == 0 {
      assert Entries(guids)[0..8] == Entry(guids[0]);
    } else {
      EntriesAt(guids[1..], k - 1);
      var m := 8 * (k - 1);
      assert Entries(guids)[8..] == Entries(guids[1..]);
      assert Entries(guids)[8 * k..8 * k + 8] == Entries(guids)[8..][m..m + 8];
    }
  }

  lemma EntryBytes(guid: Guid)
    requires guid != ""
    ensures
      var b: seq<int> := Entry(guid);
      && |b| == 8 && b[0] == guid[0] as int && b[1] == 0 && b[2] == 0 && b[3] == 0
      && b[4] * 0x100_0000 + b[5] * 0x1_0000 + b[6] * 0x100 + b[7] == Atoi(guid[1..]) % 0x1_0000_0000
  {
    hide Be32, Atoi;
    BytesOfWord(ToWord(Atoi(guid[1..])));
  }

  /** Entry k of a request byte by byte: the first character, three zeros, and the number behind it. */
  lemma RequestEntry(messageId: int, guids: seq<Guid>, k: nat)
    requires "" !in guids && |guids| <= 3838 && k < |guids|
    ensures
      var b: seq<int> := Request(messageId, guids); var i := 12 + 8 * k;
      && i + 8 <= |b| && b[i] == guids[k][0] as int && b[i + 1] == 0 && b[i + 2] == 0 && b[i + 3] == 0
      && b[i + 4] * 0x100_0000 + b[i + 5] * 0x1_0000 + b[i + 6] * 0x100 + b[i + 7] ==
           Atoi(guids[k][1..]) % 0x1_0000_0000
  {
    hide Head, Entries, Entry, Atoi;
    EntriesAt(guids, k);
    EntryBytes(guids[k]);
    var e, f := Entries(guids), Entries(guids)[8 * k..8 * k + 8];
    assert forall j :: 0 <= j < 8 ==> Request(messageId, guids)[12 + 8 * k + j] == e[8 * k + j] == f[j];
  }

  // ----- the response -----

  /** kind is the device type, copied without a change of byte order. */
  datatype Status = Status(online: Byte, channels: Byte, streams: Byte, net: Byte, kind: (Byte, Byte, Byte, Byte))

  datatype DeviceInfo = DeviceInfo(guid: string, status: Status)

  /** std::string of a char array: up to the first zero byte. */
  function CString(b: seq<Byte>): (s: string)
    ensures |s| <= |b| && (|s| < |b| ==> b[|s|] == 0)
    ensures forall k :: 0 <= k < |s| ==> s[k] as int == b[k] != 0
  {
    if b == [] || b[0] == 0 then "" else [b[0] as char] + CString(b[1..])
  }

  /** Any flag but 0 and 1 counts as offline. */
  function Flag(b: Byte): Byte {
    if b == 0 || b == 1 then b else 0
  }

  function Info(b: seq<Byte>): DeviceInfo
    requires |b| == 16
  {
    DeviceInfo(CString(b[..4]) + IntText(ToInt(Read32(b[4..8]))),
      Status(Flag(b[8]), b[9], b[10], b[11], (b[12], b[13], b[14], b[15])))
  }

  function Infos(b: seq<Byte>, n: nat): (r: seq<DeviceInfo>)
    requires |b| >= 16 * n
    ensures |r| == n
  {
    if n == 0 then [] else [Info(b[..16])] + Infos(b[16..], n - 1)
  }

  lemma {:induction false} InfosAt(b: seq<Byte>, n: nat, k: nat)
    requires |b| >= 16 * n && k < n
    ensures Infos(b, n)[k] == Info(b[16 * k..16 * k + 16])
  {
    hide Info;
    if k > 0 {
      InfosAt(b[16..], n - 1, k - 1);
      var m := 16 * (k - 1);
      assert b[16..][m..m + 16] == b[16 * k..16 * k + 16];
    }
  }

  /**
   * Entry k of a response byte by byte. The name is the text in front of a zero byte and the number, taken as an
   * int; then come the flag, channels, streams and kind of network, and four bytes of device type.
   */
  lemma ResponseEntry(response: seq<Byte>, n: nat, k: nat)
    requires |response| >= 12 + 16 * n && k < n
    ensures
      var b: seq<int> := response; var i := 12 + 16 * k;
      var v := b[i + 4] * 0x100_0000 + b[i + 5] * 0x1_0000 + b[i + 6] * 0x100 + b[i + 7];
      var info := Infos(response[12..], n)[k];
      && info.guid == CString(response[i..i + 4]) + IntText(if v < 0x8000_0000 then v else v - 0x1_0000_0000)
      && info.status.online == (if b[i + 8] == 1 then 1 else 0)
      && info.status.channels == b[i + 9] && info.status.streams == b[i + 10] && info.status.net == b[i + 11]
      && info.status.kind.0 == b[i + 12] && info.status.kind.1 == b[i + 13]
      && info.status.kind.2 == b[i + 14] && info.status.kind.3 == b[i + 15]
  {
    hide Infos, CString, IntText;
    InfosAt(response[12..], n, k);
    var e := response[12 + 16 * k..28 + 16 * k];
    assert response[12..][16 * k..16 * k + 16] == e;
    assert e[..4] == response[12 + 16 * k..16 + 16 * k];
    assert forall j :: 0 <= j < 16 ==> e[j] == response[12 + 16 * k + j];
    NumberBytes(e[4..8]);
  }

  lemma NumberBytes(b: seq<Byte>)
    requires |b| == 4
    ensures
      var w: seq<int> := b; var v := w[0] * 0x100_0000 + w[1] * 0x1_0000 + w[2] * 0x100 + w[3];
      Read32(b) == v && ToInt(Read32(b)) == if v < 0x8000_0000 then v else v - 0x1_0000_0000
  {
  }

  /** The count is taken from the packet; nothing checks that its entries lie in the buffer. */
  method ParseResponseDeviceInfo(response: seq<Byte>) returns (infos: Option<seq<DeviceInfo>>)
    requires |response| >= 12 && |response| >= 12 + 16 * Read32(response[8..12])
    ensures infos.Some? <==>
      Read32(response[..4]) >= 6 && response[4] == ST_DEVICESERVER && response[5] == MT_GETDEVICEINFO
    ensures infos.Some? ==> infos.value == Infos(response[12..], Read32(response[8..12]))
  {
    hide Read32, Info;
    if Read32(response[..4]) < 6 {
      return None;
    }
    if response[4] != ST_DEVICESERVER || response[5] != MT_GETDEVICEINFO {
      return None;
    }
    var deviceNum := Read32(response[8..12]);
    var index: nat := 12;
    var list := [];
    var i: nat := 0;
    while i < deviceNum
      invariant 0 <= i <= deviceNum && index == 12 + 16 * i
      invariant Infos(response[12..], deviceNum) == list + Infos(response[index..], deviceNum - i)
    {
      assert response[index..][..16] == response[index..index + 16];
      assert response[index..][16..] == response[index + 16..];
      list := list + [Info(response[index..index + 16])];
      index := index + 16;
      i := i + 1;
    }
    infos := Some(list);
  }

  // ----- from guid to bytes and back -----

  /** The name the parser builds from what the request says about a guid. */
  function Rebuilt(guid: Guid): string
    requires guid != ""
  {
    CString(Entry(guid)[..4]) + IntText(ToInt(Read32(Entry(guid)[4..])))
  }

  lemma RebuiltText(guid: Guid)
    requires guid != "" && FitsInt(Atoi(guid[1..]))
    ensures Rebuilt(guid) == (if guid[0] as int == 0 then "" else [guid[0]]) + IntText(Atoi(guid[1..]))
  {
    hide Be32, Read32, ToInt, ToWord, Atoi, IntText;
    var v := Atoi(guid[1..]);
    ReadBe32(ToWord(v));
    ToIntToWord(v);
    assert Entry(guid)[4..] == Be32(ToWord(v));
    var b := Entry(guid)[..4];
    assert b == [guid[0] as int, 0, 0, 0] && b[1..] == [0, 0, 0];
    assert CString(b[1..]) == "";
  }

  /** A guid survives exactly if a character and then the canonical text of an int make it up. */
  lemma GuidRoundTrip(guid: Guid)
    requires guid != "" && FitsInt(Atoi(guid[1..]))
    ensures Rebuilt(guid) == guid <==> guid[0] as int != 0 && CanonicalInt(guid[1..])
  {
    hide Rebuilt, Atoi, IntText, CanonicalInt;
    RebuiltText(guid);
    IntTextAtoi(guid[1..]);
    var t := IntText(Atoi(guid[1..]));
    assert guid == [guid[0]] + guid[1..];
    if guid[0] as int == 0 {
      IntTextStarts(Atoi(guid[1..]));
      assert "" + t == t;
    } else {
      assert ([guid[0]] + t)[1..] == t;
    }
  }

  lemma IntTextStarts(v: int)
    ensures IntText(v) != "" && IntText(v)[0] as int != 0
  {
  }

  /** Letter and canonical decimal below 2^31: the guids the server knows. */
  predicate Regular(guid: Guid) {
    guid != "" && guid[0] as int != 0 && CanonicalInt(guid[1..]) && FitsInt(Atoi(guid[1..]))
  }

  function StatusBytes(s: Status): (r: seq<Byte>)
    ensures |r| == 8
  {
    [s.online, s.channels, s.streams, s.net, s.kind.0, s.kind.1, s.kind.2, s.kind.3]
  }

  /** The answer of a server that repeats each entry of the request and adds the status. */
  function Replies(guids: seq<Guid>, stats: seq<Status>): (r: seq<Byte>)
    requires "" !in guids && |guids| == |stats|
    ensures |r| == 16 * |guids|
  {
    if guids == [] then [] else Entry(guids[0]) + StatusBytes(stats[0]) + Replies(guids[1..], stats[1..])
  }

  function Seen(s: Status): Status {
    s.(online := Flag(s.online))
  }

  lemma {:induction false} RepliesParse(guids: seq<Guid>, stats: seq<Status>)
    requires "" !in guids && |guids| == |stats| && forall k :: 0 <= k < |guids| ==> Regular(guids[k])
    ensures forall k :: 0 <= k < |guids| ==>
      Infos(Replies(guids, stats), |guids|)[k] == DeviceInfo(guids[k], Seen(stats[k]))
  {
    hide Entry, Regular, CString, IntText, ToInt, Read32;
    if guids != [] {
      var b := Replies(guids, stats);
      ReplyParses(guids[0], stats[0]);
      RepliesParse(guids[1..], stats[1..]);
      assert b[..16] == Entry(guids[0]) + StatusBytes(stats[0]) && b[16..] == Replies(guids[1..], stats[1..]);
      assert Infos(b, |guids|) == [Info(b[..16])] + Infos(b[16..], |guids| - 1);
    }
  }

  lemma ReplyParses(guid: Guid, s: Status)
    requires Regular(guid)
    ensures Info(Entry(guid) + StatusBytes(s)) == DeviceInfo(guid, Seen(s))
  {
    hide Entry, CString, IntText, ToInt, Read32, Atoi, CanonicalInt;
    GuidRoundTrip(guid);
    var b := Entry(guid) + StatusBytes(s);
    assert b[..4] == Entry(guid)[..4] && b[4..8] == Entry(guid)[4..];
  }

  /** The flag found for a guid; the last match wins, and without one the flag stays what it was. */
  function OnlineOf(infos: seq<DeviceInfo>, guid: string, before: int): int {
    if infos == [] then before
    else
      var last := infos[|infos| - 1];
      if last.guid == guid then Flag(last.status.online) else OnlineOf(infos[..|infos| - 1], guid, before)
  }

  /** Entry k is the last of the first n entries that has this guid. */
  predicate IsLast(infos: seq<DeviceInfo>, n: nat, k: int, guid: string)
    requires n <= |infos|
  {
    0 <= k < n && infos[k].guid == guid && forall i :: k < i < n ==> infos[i].guid != guid
  }

  method GetDeviceOnlineStatusCloudSee(infos: seq<DeviceInfo>, guid: string, before: int) returns (onlineFlag: int)
    ensures onlineFlag == OnlineOf(infos, guid, before)
    ensures (forall i :: 0 <= i < |infos| ==> infos[i].guid != guid) ==> onlineFlag == before
    ensures forall k :: IsLast(infos, |infos|, k, guid) ==> onlineFlag == if infos[k].status.online == 1 then 1 else 0
  {
    onlineFlag := before;
    var i := 0;
    while i < |infos|
      invariant 0 <= i <= |infos| && onlineFlag == OnlineOf(infos[..i], guid, before)
      invariant (forall j :: 0 <= j < i ==> infos[j].guid != guid) ==> onlineFlag == before
      invariant forall k :: IsLast(infos, i, k, guid) ==> onlineFlag == if infos[k].status.online == 1 then 1 else 0
    {
      assert infos[..i + 1][..i] == infos[..i];
      if infos[i].guid == guid {
        onlineFlag := infos[i].status.online;
        if !(onlineFlag == 1 || onlineFlag == 0) {
          onlineFlag := 0;
        }
      }
      i := i + 1;
    }
    assert infos[..i] == infos;
  }

  /** Looking up any guid of the request in the parsed answer finds the status the server gave for it last. */
  lemma LookupFinds(guids: seq<Guid>, stats: seq<Status>, k: nat, before: int)
    requires |guids| == |stats| && k < |guids| && forall i :: 0 <= i < |guids| ==> Regular(guids[i])
    requires forall i :: k < i < |guids| ==> guids[i] != guids[k]
    ensures "" !in guids
    ensures OnlineOf(Infos(Replies(guids, stats), |guids|), guids[k], before) == Flag(stats[k].online)
  {
    hide Infos, Replies, CanonicalInt, Atoi;
    RepliesParse(guids, stats);
    LastMatch(Infos(Replies(guids, stats), |guids|), k, before);
  }

  lemma {:induction false} LastMatch(infos: seq<DeviceInfo>, k: nat, before: int)
    requires k < |infos| && forall i :: k < i < |infos| ==> infos[i].guid != infos[k].guid
    ensures OnlineOf(infos, infos[k].guid, before) == Flag(infos[k].status.online)
    decreases |infos|
  {
    if k < |infos| - 1 {
      LastMatch(infos[..|infos| - 1], k, before);
    }
  }
}
