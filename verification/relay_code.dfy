/** The code of imDevServer whose atomic pieces are the steps of Relay. */
module RelayCode {
  import opened Decimal
  import opened ThreadSafeMap
  import opened Relay

  /** What a Redis command answers: an error, nothing under that key, or a text. */
  datatype Reply = Failed | NoValue | Text(text: string)

  function Answered(reply: Reply): Field
    requires !reply.Failed?
  {
    if reply.NoValue? then Nil else Field(reply.text, 0)
  }

  /** A missing value is logged, not reported: the text stays empty and the call succeeds. */
  method Hget(reply: Reply) returns (ret: bool, value: string)
    ensures ret <==> !reply.Failed?
    ensures ret ==> Atoi(value) == Value(Answered(reply))
  {
    ret, value := true, "";
    match reply {
      case Failed => ret := false;
      case NoValue =>
      case Text(text) => value := text;
    }
  }

  class NetCore {
    var id_: int
    const map_csfd_id_: CThreadSafeMap<int, int>

    constructor ()
      ensures id_ == INIT.id && fresh(map_csfd_id_) && map_csfd_id_.map_ == INIT.table
    {
      id_ := 0;
      map_csfd_id_ := new CThreadSafeMap();
    }

    method GetClientfdMapId() returns (id: int)
      modifies this`id_
      ensures id == id_ == NextId(old(id_))
      ensures 0 <= old(id_) < 65536 ==> id == old(id_) + 1
      ensures old(id_) == 65536 ==> id == 0
    {
      if id_ > 65535 {
        id_ := 0;
      } else {
        id_ := id_ + 1;
      }
      id := id_;
    }

    /** The two steps Accept and Insert; what is dispatched to a worker is the pair that was recorded. */
    method DoAccept(sfd: int, nonBlocking: bool) returns (dispatched: seq<Conn>)
      modifies this`id_, map_csfd_id_
      ensures !nonBlocking ==> dispatched == [] && id_ == old(id_) && map_csfd_id_.map_ == old(map_csfd_id_.map_)
      ensures nonBlocking ==>
        && id_ == NextId(old(id_)) && dispatched == [Conn(sfd, id_)]
        && map_csfd_id_.map_ == Inserted(old(map_csfd_id_.map_), sfd, id_)
    {
      dispatched := [];
      if !nonBlocking {
        return;
      }
      id_ := GetClientfdMapId();
      map_csfd_id_.Insert(sfd, id_);
      dispatched := [Conn(sfd, id_)];
    }

    /** The two HGETs may be answered at different times; the table is looked at last, in one step. */
    method VerifyDeviceSfd(fdReply: Reply, idReply: Reply) returns (ret: bool, sfd: int)
      ensures fdReply.Failed? || idReply.Failed? ==> !ret
      ensures !fdReply.Failed? && !idReply.Failed? ==>
        && sfd == Value(Answered(fdReply))
        && (ret <==> Passes(INIT.(table := map_csfd_id_.map_), ReadBoth("", Answered(fdReply), Answered(idReply))))
    {
      var strSfd, strSfdId;
      ret, sfd := false, 0;
      ret, strSfd := Hget(fdReply);
      if !ret {
        return;
      }
      ret, strSfdId := Hget(idReply);
      if !ret {
        return;
      }
      sfd := Atoi(strSfd);
      ret := map_csfd_id_.FindValueByKey(sfd, Atoi(strSfdId));
    }
  }

  /** The hashes of the DEVICE database that hold where a device is connected. */
  class RedisOpt {
    var records: map<Guid, Record>

    method HsetFd(guid: Guid, sfd: int, done: bool) returns (ret: bool)
      modifies this
      ensures ret == done
      ensures !done ==> records == old(records)
      ensures done ==>
        records == old(records)[guid := FieldsOf(old(records), guid).(fd := Field(IntText(sfd), 0))]
    {
      ret := done;
      if done {
        records := records[guid := FieldsOf(records, guid).(fd := Field(IntText(sfd), 0))];
      }
    }

    method HsetFdId(guid: Guid, id: int, done: bool) returns (ret: bool)
      modifies this
      ensures ret == done
      ensures !done ==> records == old(records)
      ensures done ==>
        records == old(records)[guid := FieldsOf(old(records), guid).(id := Field(IntText(id), 0))]
    {
      ret := done;
      if done {
        records := records[guid := FieldsOf(records, guid).(id := Field(IntText(id), 0))];
      }
    }

    /**
     * The five commands of DEVICE_ONLINE, each done or failing as the caller says; the first failure ends the
     * chain. Undisturbed, the record ends up whole, or holds the new fd beside the old id, or is untouched.
     */
    method DeviceOnline(c: Conn, guid: Guid, done: seq<bool>) returns (success: bool)
      requires |done| == 5
      modifies this
      ensures success <==> forall k :: 0 <= k < 5 ==> done[k]
      ensures
        var was := FieldsOf(old(records), guid);
        var fdDone := done[0] && done[1] && done[2];
        && (!fdDone ==> records == old(records))
        && (fdDone ==> records == old(records)[guid :=
             Record(Field(IntText(c.fd), 0), if done[3] then Field(IntText(c.id), 0) else was.id)])
    {
      var flag := done[0] && done[1];
      if flag {
        flag := HsetFd(guid, c.fd, done[2]);
      }
      if flag {
        flag := HsetFdId(guid, c.id, done[3]);
      }
      success := flag && done[4];
    }
  }
}
