/** Alerts over whole runs of the TLS writer: one is sent at most, and no application data after it. */
module TlsWriterAlerts {
  import opened Basics
  import opened TlsWriter
  import opened TlsWriterRun

  /** The alert that was asked for first. */
  function FirstAlert(events: seq<Event>): Option<seq<Byte>> {
    if events == [] then None
    else
      var e, first := events[|events| - 1], FirstAlert(events[..|events| - 1]);
      if first.None? && e.Alert? then Some([e.level, e.desc]) else first
  }

  predicate AlertPending(w: Writer) {
    w.pending.Some? && w.pending.value.typ == ALERT
  }

  /** The alert, if there is one, waits to be sealed, is sealed but not flushed, or was sent. */
  ghost predicate AlertState(w: Writer, first: Option<seq<Byte>>) {
    && w.shutdown == first.Some?
    && match first
       case None => w.alert == None && Plain(w.log, ALERT) == [] && !AlertPending(w)
       case Some(a) =>
         && |a| == 2
         && (if w.alert.None? then Plain(w.log, ALERT) == a && !AlertPending(w)
             else w.alert == first && Plain(w.log, ALERT) == if AlertPending(w) then a else [])
         && (AlertPending(w) ==> w.pending.value.len == 2)
  }

  /** A step that has nothing to do with alerts. */
  ghost predicate NoAlert(w: Writer, w': Writer) {
    && Plain(w'.log, ALERT) == Plain(w.log, ALERT) && w'.alert == w.alert && w'.shutdown == w.shutdown
    && AlertPending(w') == AlertPending(w) && (AlertPending(w) ==> w'.pending == w.pending)
  }

  lemma NoAlertKeeps(w: Writer, w': Writer, first: Option<seq<Byte>>)
    requires AlertState(w, first) && NoAlert(w, w')
    ensures AlertState(w', first)
  {
  }

  lemma AddRecordNoAlert(w: Writer, c: Cipher, typ: Byte, plain: seq<Byte>)
    requires typ != ALERT
    ensures NoAlert(w, AddRecord(w, c, typ, plain).writer)
  {
    var r := AddRecord(w, c, typ, plain);
    if r.ok {
      PlainAppend(w.log, r.writer.log[|w.log|], ALERT);
    }
  }

  lemma {:induction false} AddMessageNoAlert(w: Writer, c: Cipher, mode: Mode, msg: seq<Byte>)
    ensures NoAlert(w, AddMessage(w, c, mode, msg).writer)
    decreases |msg|
  {
    hide AddRecord, Plain;
    var n := Min(mode.maxFragment, |msg|);
    AddRecordNoAlert(w, c, HANDSHAKE, msg[..n]);
    var one := AddRecord(w, c, HANDSHAKE, msg[..n]);
    if one.ok && n < |msg| {
      AddMessageNoAlert(one.writer, c, mode, msg[n..]);
    }
  }

  lemma FlushNoAlert(w: Writer, flushed: bool)
    ensures NoAlert(w, FlushFlight(w, flushed).writer)
  {
    hide TlsWriter.Flush, SendFlight, Plain;
  }

  lemma {:induction false} WriteFromNoAlert(w: Writer, c: Cipher, mode: Mode, addr: int, data: seq<Byte>, tot: nat)
    requires tot <= |data| && !AlertPending(w)
    ensures NoAlert(w, WriteFrom(w, c, mode, addr, data, tot).writer)
    decreases |data| - tot, 1
  {
    hide DoWrite, Plain;
    var piece := data[tot..tot + Min(|data| - tot, mode.maxFragment)];
    var one := DoWrite(w, c, mode, addr + tot, APPLICATION_DATA, piece);
    DoWriteEffect(w, c, mode, addr + tot, APPLICATION_DATA, piece, one);
    if one.writer.log != w.log {
      PlainAppend(w.log, one.writer.log[|w.log|], ALERT);
    }
    AfterPieceNoAlert(one, c, mode, addr, data, tot);
  }

  lemma {:induction false} AfterPieceNoAlert(one: Written, c: Cipher, mode: Mode, addr: int, data: seq<Byte>, tot: nat)
    requires tot <= |data| && one.ret <= |data| - tot && !AlertPending(one.writer)
    ensures NoAlert(one.writer, AfterPiece(one, c, mode, addr, data, tot).writer)
    decreases |data| - tot, 0
  {
    hide Plain;
    if one.ret > 0 && one.ret != |data| - tot && !mode.partialWrite {
      WriteFromNoAlert(one.writer, c, mode, addr, data, tot + one.ret);
    }
  }

  lemma WriteNoAlert(w: Writer, c: Cipher, mode: Mode, addr: int, data: seq<Byte>)
    requires !w.shutdown ==> !AlertPending(w)
    ensures NoAlert(w, WriteAppData(w, c, mode, addr, data).writer)
  {
    hide Plain, WriteFrom;
    if !w.shutdown && w.wnum <= |data| {
      WriteFromNoAlert(w.(wnum := 0), c, mode, addr, data, w.wnum);
    }
  }

  /** Dispatching seals the waiting alert, or goes on with the one that was sealed, or does neither. */
  lemma DispatchKeepsState(w: Writer, c: Cipher, mode: Mode, first: Option<seq<Byte>>)
    requires AlertState(w, first) && w.alert.Some?
    ensures AlertState(DispatchAlert(w, c, mode).writer, first)
  {
    hide DoWrite, Plain;
    var one := DoWrite(w, c, mode, ALERT_BUFFER, ALERT, w.alert.value);
    DoWriteEffect(w, c, mode, ALERT_BUFFER, ALERT, w.alert.value, one);
    if one.writer.log != w.log {
      PlainAppend(w.log, one.writer.log[|w.log|], ALERT);
      assert [] + w.alert.value == w.alert.value;
    }
  }

  lemma AlertStep(w: World, e: Event, first: Option<seq<Byte>>)
    requires AlertState(w.writer, first)
    ensures AlertState(Apply(w, e).writer, if first.None? && e.Alert? then Some([e.level, e.desc]) else first)
  {
    hide AlertState, NoAlert, WriteAppData, AddMessage, AddRecord, FlushFlight, DispatchAlert, Plain;
    var wr, wr' := w.writer, Apply(w, e).writer;
    if e.Alert? {
      SendAlertStep(wr, e.c, e.mode, e.level, e.desc, first);
    } else if e.Dispatch? {
      if wr.alert.Some? {
        DispatchKeepsState(wr, e.c, e.mode, first);
      }
    } else {
      if e.WriteApp? {
        CallNoAlert(w, e, first);
      } else if e.Message? {
        AddMessageNoAlert(wr, e.c, e.mode, e.msg);
      } else if e.ChangeCipherSpec? {
        AddRecordNoAlert(wr, e.c, CHANGE_CIPHER_SPEC, [1]);
      } else if e.Flush? {
        FlushNoAlert(wr, e.flushed);
      } else {
        assert NoAlert(wr, wr') by {
          OtherFields(wr, wr');
        }
      }
      NoAlertKeeps(wr, wr', first);
    }
  }

  lemma OtherFields(w: Writer, w': Writer)
    requires w'.log == w.log && w'.alert == w.alert && w'.shutdown == w.shutdown && w'.pending == w.pending
    ensures NoAlert(w, w')
  {
  }

  lemma CallNoAlert(w: World, e: Event, first: Option<seq<Byte>>)
    requires AlertState(w.writer, first) && e.WriteApp?
    ensures NoAlert(w.writer, CallWrite(w, e).writer)
  {
    hide WriteAppData, Plain;
    if w.owed <= e.len && w.acked + e.len <= |w.stream| {
      WriteNoAlert(w.writer, e.c, e.mode, e.addr, w.stream[w.acked..w.acked + e.len]);
    }
  }

  lemma SendAlertStep(w: Writer, c: Cipher, mode: Mode, level: Byte, desc: Byte, first: Option<seq<Byte>>)
    requires AlertState(w, first)
    ensures AlertState(SendAlert(w, c, mode, level, desc).writer, if first.None? then Some([level, desc]) else first)
  {
    hide DispatchAlert, Plain;
    if first.None? {
      var noted := w.(shutdown := true, alert := Some([level, desc]));
      if w.buffer == [] {
        DispatchKeepsState(noted, c, mode, Some([level, desc]));
      }
    }
  }

  lemma {:induction false} RunAlertState(stream: seq<Byte>, events: seq<Event>)
    ensures AlertState(Run(stream, events).writer, FirstAlert(events))
  {
    hide Apply;
    if events != [] {
      RunAlertState(stream, events[..|events| - 1]);
      AlertStep(Run(stream, events[..|events| - 1]), events[|events| - 1], FirstAlert(events[..|events| - 1]));
    }
  }

  /**
   In every run no more than the alert that was asked for first is ever sealed: nothing of it while it
   waits, all of it from when it is sealed until it is reported sent and for ever after.
   */
  lemma AlertSentOnce(stream: seq<Byte>, events: seq<Event>)
    ensures var w, first := Run(stream, events).writer, FirstAlert(events);
            && (Plain(w.log, ALERT) == [] || (first.Some? && Plain(w.log, ALERT) == first.value))
            && (first.Some? ==> w.shutdown && w.alert in {None, first})
            && (first.Some? && w.alert == None ==> Plain(w.log, ALERT) == first.value)
            && (first.None? ==> !w.shutdown && w.alert == None && Plain(w.log, ALERT) == [])
  {
    RunAlertState(stream, events);
  }

  lemma ShutdownStep(w: World, e: Event)
    requires w.writer.shutdown
    ensures Apply(w, e).writer.shutdown
    ensures Plain(Apply(w, e).writer.log, APPLICATION_DATA) == Plain(w.writer.log, APPLICATION_DATA)
  {
    hide Plain, DoWrite;
    match e
    case Ready(_) =>
    case WriteApp(_, _, _, _) =>
    case Message(msg, c, mode) =>
      AddMessageEffect(w.writer, c, mode, msg, AddMessage(w.writer, c, mode, msg));
      AddMessageNoAlert(w.writer, c, mode, msg);
    case ChangeCipherSpec(c) =>
      AddRecordEffect(w.writer, c, CHANGE_CIPHER_SPEC, [1], AddRecord(w.writer, c, CHANGE_CIPHER_SPEC, [1]));
    case Flush(flushed) =>
      FlushFlightFrame(w.writer, flushed, FlushFlight(w.writer, flushed));
      FlushNoAlert(w.writer, flushed);
    case Alert(_, _, _, _) =>
    case Dispatch(c, mode) =>
      if w.writer.alert.Some? {
        AlertEffect(w.writer, c, mode, DispatchAlert(w.writer, c, mode));
        DoWriteEffect(w.writer, c, mode, ALERT_BUFFER, ALERT, w.writer.alert.value,
                      DoWrite(w.writer, c, mode, ALERT_BUFFER, ALERT, w.writer.alert.value));
      }
    case NewKeys =>
  }

  /** Once an alert was asked for, no application data is sealed any more, whatever happens. */
  lemma {:induction false} NothingAfterAlert(stream: seq<Byte>, events: seq<Event>, more: seq<Event>)
    requires FirstAlert(events).Some?
    ensures Run(stream, events + more).writer.shutdown
    ensures Plain(Run(stream, events + more).writer.log, APPLICATION_DATA)
         == Plain(Run(stream, events).writer.log, APPLICATION_DATA)
    decreases |more|
  {
    hide Apply, Plain;
    if more == [] {
      RunAlertState(stream, events);
      assert events + more == events;
    } else {
      var all := events + more;
      assert all[..|all| - 1] == events + more[..|more| - 1];
      NothingAfterAlert(stream, events, more[..|more| - 1]);
      ShutdownStep(Run(stream, all[..|all| - 1]), all[|all| - 1]);
    }
  }
}
