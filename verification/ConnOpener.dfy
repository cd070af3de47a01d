/**
 The connection opener job (ConnOpener.cc).  Each entry point below is one asynchronous call
 to the job, from callStart to callEnd; what the network and the caller do is a parameter.
 */
module ConnOpener {

  datatype CommErr = CommOk | CommErrConnect | CommTimeout | CommErrClosing

  datatype ConnectResult = InProgress | Connected | Failed

  /** The descriptors 0, 1, ..., n - 1: every successful open gets the next one. */
  function Numbered(n: nat): (r: seq<nat>)
    ensures |r| == n && forall i :: 0 <= i < n ==> r[i] == i
  {
    seq(n, i => i)
  }

  class Opener {
    const connectRetries: int
    var temporaryFd: int
    var callback: bool           // callback_ != NULL
    var canceled: bool           // its initiator has cancelled the callback
    var failRetries: nat
    var sleeping: bool           // calls_.sleep_
    var timeoutSet: bool         // calls_.timeout_ != NULL
    var earlyAbortSet: bool      // calls_.earlyAbort_ != NULL
    var writeHandler: bool       // a retry of connect() is on its way
    var stopReason: bool
    var deleted: bool
    var connFd: int              // conn_->fd

    var nextFd: nat           // descriptors ever opened
    ghost var closed: seq<nat>   // comm_close() calls
    ghost var kept: seq<nat>     // descriptors handed to conn_
    ghost var answers: seq<CommErr>  // callbacks scheduled

    constructor (retries: int)
      ensures connectRetries == retries && Owned() && Fresh()
      ensures !canceled && !stopReason && temporaryFd == -1 && connFd == -1 && nextFd == 0
    {
      connectRetries := retries;
      temporaryFd, callback, canceled, failRetries, sleeping := -1, true, false, 0, false;
      timeoutSet, earlyAbortSet, writeHandler, stopReason, deleted, connFd := false, false, false, false, false, -1;
      nextFd, closed, kept, answers := 0, [], [], [];
    }

    /** Before start(). */
    ghost predicate Fresh()
      reads this
    {
      && !deleted && callback && temporaryFd < 0 && !sleeping && failRetries == 0 && answers == [] && kept == []
      && !timeoutSet && !earlyAbortSet && !writeHandler
    }

    ghost function Current(): seq<nat>
      reads this
    {
      if temporaryFd >= 0 then [temporaryFd] else []
    }

    /** Every descriptor opened was closed once, handed over once, or is the one being opened. */
    ghost predicate Books()
      reads this
    {
      && closed + kept + Current() == Numbered(nextFd)
      && (kept != [] ==> temporaryFd < 0 && |kept| == 1 && connFd == kept[0])
      && (kept == [] ==> connFd == -1)
      && (temporaryFd < 0 ==> !timeoutSet && !earlyAbortSet && !writeHandler)
      && (callback ==> answers == [])
      && (!callback ==> (answers == [] ==> canceled) && |answers| <= 1 && stopReason)
      && (CommOk in answers ==> kept != [])
      && (kept != [] && answers != [] ==> answers == [CommOk])
      && (sleeping ==> temporaryFd < 0)
      && failRetries <= if connectRetries < 1 then 1 else connectRetries
    }

    /** While the caller waits nothing has been handed over and attempts are left. */
    ghost predicate Owned()
      reads this
    {
      Books() && (callback ==> kept == [] && (failRetries == 0 || failRetries < connectRetries))
    }

    /**
     Alive between calls: sleeping, or waiting for a descriptor with a limit on the time, or its caller
     has gone away.
     */
    ghost predicate Waiting()
      reads this
    {
      !deleted && Owned() && callback && (canceled || Guarded() || sleeping) && (temporaryFd >= 0 ==> Guarded() && writeHandler)
    }

    /** The job is over: nothing is left open, nobody is left waiting. */
    ghost predicate Ended()
      reads this
    {
      && deleted && Owned() && !callback && temporaryFd < 0 && !sleeping
      && closed + kept == Numbered(nextFd)
      && (!canceled ==> |answers| == 1)
    }

    /** Some descriptor is being opened: its time is limited, and its closing is noticed. */
    ghost predicate Guarded()
      reads this
    {
      timeoutSet && earlyAbortSet && temporaryFd >= 0
    }

    /** What the caller hears when the job ends without a connection. */
    ghost function Heard(err: CommErr): seq<CommErr>
      reads this
    {
      if canceled then [] else [err]
    }

    /** How a call comes to rest that made one attempt on descriptor fd; stopping: the job was told to stop before. */
    twostate predicate Attempted(result: ConnectResult, fd: nat, stopping: bool)
      reads this
    {
      && canceled == old(canceled)
      && failRetries == old(failRetries) + (if result == Failed then 1 else 0)
      && match result
         case Connected => Ended() && kept == [fd] && connFd == fd && closed == old(closed) && answers == Heard(CommOk)
         case Failed =>
           && kept == [] && closed == old(closed) + [fd]
           && if failRetries < connectRetries && !canceled && !stopping then Waiting() && sleeping && answers == []
              else Ended() && answers == Heard(CommErrConnect)
         case InProgress =>
           && kept == []
           && if !canceled && !stopping then
                Waiting() && writeHandler && temporaryFd == fd && !sleeping && closed == old(closed) && answers == []
              else Ended() && closed == old(closed) + [fd] && answers == Heard(CommErrConnect)
    }

    predicate DoneAll()
      requires callback && !canceled ==> temporaryFd >= 0 || sleeping
      reads this
    {
      !callback || canceled
    }

    /** Schedules the callback unless it was cancelled; the job stops either way. */
    method SendAnswer(errFlag: CommErr)
      requires Books() && (errFlag == CommOk <==> kept != [])
      modifies `callback, `answers, `stopReason
      ensures Owned() && !callback && stopReason
      ensures answers == if old(callback) && !canceled then [errFlag] else old(answers)
    {
      if callback {
        if !canceled {
          answers := answers + [errFlag];
        }
        callback := false;
      }
      stopReason := true;
    }

    method CleanFd()
      requires temporaryFd >= 0
      modifies `writeHandler, `timeoutSet, `earlyAbortSet
      ensures !writeHandler && !timeoutSet && !earlyAbortSet
    {
      writeHandler := false;
      timeoutSet := false;
      earlyAbortSet := false;
    }

    method CloseFd()
      requires Owned()
      modifies `writeHandler, `timeoutSet, `earlyAbortSet, `temporaryFd, `closed
      ensures Owned() && temporaryFd < 0
      ensures closed == old(closed) + old(Current())
    {
      if temporaryFd < 0 {
        assert closed + [] == closed;
        return;
      }
      CleanFd();
      closed := closed + [temporaryFd];
      assert closed + kept + [] == old(closed) + kept + [temporaryFd];
      temporaryFd := -1;
    }

    /** Moves the descriptor to conn_ for good. */
    method KeepFd()
      requires Owned() && temporaryFd >= 0 && callback
      modifies `writeHandler, `timeoutSet, `earlyAbortSet, `temporaryFd, `kept, `connFd
      ensures Books() && kept == [old(temporaryFd)] && temporaryFd < 0
    {
      CleanFd();
      connFd := temporaryFd;
      kept := [temporaryFd];
      assert closed + kept + [] == closed + [] + [temporaryFd];
      temporaryFd := -1;
    }

    method BecomeConnected()
      requires Owned() && temporaryFd >= 0 && callback
      modifies `writeHandler, `timeoutSet, `earlyAbortSet, `temporaryFd, `kept, `connFd, `callback, `answers, `stopReason
      ensures Owned() && !callback && stopReason && kept == [old(temporaryFd)] && temporaryFd < 0
      ensures answers == Heard(CommOk)
    {
      KeepFd();
      SendAnswer(CommOk);
    }

    /** Opens a descriptor; false means that the job is done. */
    method CreateFd(canOpen: bool) returns (ok: bool)
      requires Owned() && temporaryFd < 0 && kept == [] && !sleeping
      modifies `temporaryFd, `nextFd, `timeoutSet, `earlyAbortSet, `callback, `answers, `stopReason
      ensures Owned() && kept == []
      ensures ok ==> Guarded() && temporaryFd == old(nextFd) && nextFd == old(nextFd) + 1
      ensures !ok ==> nextFd == old(nextFd)
      ensures ok ==> temporaryFd >= 0 && callback && callback == old(callback) && answers == old(answers) && stopReason == old(stopReason)
      ensures !ok ==> temporaryFd < 0 && (stopReason || !callback || canceled)
      ensures ok <==> old(callback) && !canceled && canOpen
      ensures answers == if old(callback) && !canceled && !canOpen then [CommErrConnect] else old(answers)
      ensures callback <==> old(callback) && (canceled || canOpen)
    {
      if !callback || canceled {
        return false;
      }
      if !canOpen {
        SendAnswer(CommErrConnect);
        return false;
      }
      temporaryFd := nextFd;
      nextFd := nextFd + 1;
      assert Numbered(nextFd) == Numbered(nextFd - 1) + [temporaryFd];
      assert closed + kept == closed + kept + [];
      earlyAbortSet := true;
      timeoutSet := true;
      return true;
    }

    method Sleep()
      requires Owned() && !sleeping
      modifies `writeHandler, `timeoutSet, `earlyAbortSet, `temporaryFd, `closed, `sleeping
      ensures Owned() && sleeping && temporaryFd < 0 && closed == old(closed) + old(Current())
    {
      CloseFd();
      sleeping := true;
    }

    method Connect(result: ConnectResult)
      requires Owned() && temporaryFd >= 0 && callback && !sleeping
      modifies this
      ensures Owned() && deleted == old(deleted) && canceled == old(canceled)
      ensures callback ==> temporaryFd >= 0 || sleeping
      ensures callback ==> stopReason == old(stopReason)
      ensures result == InProgress ==>
                && writeHandler && temporaryFd == old(temporaryFd) && callback && !sleeping && failRetries == old(failRetries)
                && closed == old(closed) && (old(Guarded()) ==> Guarded())
      ensures result == Failed ==>
                && failRetries == old(failRetries) + 1
                && (failRetries < connectRetries ==>
                      callback && sleeping && temporaryFd < 0 && closed == old(closed) + [old(temporaryFd)])
                && (failRetries >= connectRetries ==>
                      && !callback && answers == Heard(CommErrConnect) && !sleeping
                      && temporaryFd == old(temporaryFd) && closed == old(closed))
      ensures result == Connected ==>
                && kept == [old(temporaryFd)] && !callback && answers == Heard(CommOk)
                && failRetries == old(failRetries) && closed == old(closed)
      ensures result != Connected ==> kept == []
    {
      match result {
        case InProgress =>
          writeHandler := true;
        case Connected =>
          BecomeConnected();
        case Failed =>
          failRetries := failRetries + 1;
          if failRetries < connectRetries {
            Sleep();
            return;
          } else {
            SendAnswer(CommErrConnect);
          }
      }
    }

    method SwanSong()
      requires Owned() && !deleted
      modifies this
      ensures Owned() && !callback && temporaryFd < 0 && !sleeping && !deleted && canceled == old(canceled)
      ensures closed + kept == Numbered(nextFd) && kept == old(kept) && closed == old(closed) + old(Current())
      ensures !canceled ==> |answers| == 1
      ensures failRetries == old(failRetries)
      ensures answers == if old(callback) && !canceled then [CommErrConnect] else old(answers)
    {
      if callback {
        SendAnswer(CommErrConnect);
      }
      if temporaryFd >= 0 {
        CloseFd();
      }
      sleeping := false;
      assert closed + kept + [] == closed + kept;
    }

    /** callEnd: a job that is done sings its swan song and is deleted. */
    method CallEnd()
      requires Owned() && !deleted && (stopReason || !callback || canceled || temporaryFd >= 0 || sleeping)
      requires stopReason || !callback || canceled || (temporaryFd >= 0 ==> Guarded() && writeHandler)
      modifies this
      ensures Ended() || (Waiting() && !stopReason)
      ensures Ended() <==> old(stopReason || !callback || canceled)
      ensures canceled == old(canceled) && kept == old(kept) && failRetries == old(failRetries) && nextFd == old(nextFd)
      ensures closed == if deleted then old(closed) + old(Current()) else old(closed)
      ensures !deleted ==>
                && temporaryFd == old(temporaryFd) && sleeping == old(sleeping) && writeHandler == old(writeHandler)
                && timeoutSet == old(timeoutSet) && earlyAbortSet == old(earlyAbortSet)
      ensures answers == if old(callback) && deleted && !canceled then [CommErrConnect] else old(answers)
    {
      assert stopReason || !(callback && !canceled) || temporaryFd >= 0 || sleeping; // the Must() of doneAll
      if stopReason || DoneAll() {
        SwanSong();
        deleted := true;
      }
    }

    // ---------- the calls a job can get ----------

    method Start(canOpen: bool, result: ConnectResult)
      requires Owned() && Fresh()
      modifies this
      ensures Ended() || Waiting()
      ensures canceled == old(canceled)
      ensures canceled || !canOpen ==> Ended() && closed == old(closed) && nextFd == old(nextFd) && answers == Heard(CommErrConnect)
      ensures !canceled && canOpen ==> Attempted(result, old(nextFd), old(stopReason)) && nextFd == old(nextFd) + 1
    {
      OpenAndConnect(canOpen, result);
    }

    /** The sleep between two attempts is over. */
    method Restart(canOpen: bool, result: ConnectResult)
      requires Waiting() && sleeping
      modifies this
      ensures Ended() || Waiting()
      ensures canceled == old(canceled)
      ensures canceled || !canOpen ==> Ended() && closed == old(closed) && nextFd == old(nextFd) && answers == Heard(CommErrConnect)
      ensures !canceled && canOpen ==> Attempted(result, old(nextFd), old(stopReason)) && nextFd == old(nextFd) + 1
    {
      sleeping := false;
      OpenAndConnect(canOpen, result);
    }

    /** What starting and restarting have in common, up to the end of the call. */
    method OpenAndConnect(canOpen: bool, result: ConnectResult)
      requires Owned() && !deleted && callback && temporaryFd < 0 && !sleeping
      modifies this
      ensures Ended() || Waiting()
      ensures canceled == old(canceled)
      ensures canceled || !canOpen ==> Ended() && closed == old(closed) && nextFd == old(nextFd) && answers == Heard(CommErrConnect)
      ensures !canceled && canOpen ==> Attempted(result, old(nextFd), old(stopReason)) && nextFd == old(nextFd) + 1
    {
      var ok := CreateFd(canOpen);
      if ok {
        Connect(result);
      }
      CallEnd();
    }

    /** The descriptor became writable after COMM_INPROGRESS. */
    method RetryConnect(result: ConnectResult)
      requires Waiting() && writeHandler
      modifies this
      ensures Ended() || Waiting()
      ensures old(temporaryFd) >= 0 && Attempted(result, old(temporaryFd), old(stopReason)) && nextFd == old(nextFd)
    {
      writeHandler := false;
      Connect(result);
      CallEnd();
    }

    method Timeout()
      requires Waiting() && timeoutSet
      modifies this
      ensures Ended() && answers == Heard(CommTimeout) && closed == old(closed) + [old(temporaryFd)]
      ensures canceled == old(canceled)
    {
      timeoutSet := false;
      SendAnswer(CommTimeout);
      CallEnd();
    }

    /** Somebody closed the descriptor under us. */
    method EarlyAbort()
      requires Waiting() && earlyAbortSet
      modifies this
      ensures Ended() && answers == Heard(CommErrClosing) && closed == old(closed) + [old(temporaryFd)]
      ensures canceled == old(canceled)
    {
      earlyAbortSet := false;
      SendAnswer(CommErrClosing);
      CallEnd();
    }

    /** An external abort, as an asynchronous call or from outside of any call. */
    method NoteAbort(inCall: bool)
      requires Waiting()
      modifies this
      ensures inCall ==> Ended() && answers == Heard(CommErrConnect) && closed == old(closed) + old(Current())
      ensures !inCall ==> Waiting() && stopReason
      ensures canceled == old(canceled)
    {
      stopReason := true;
      if inCall {
        CallEnd();
      }
    }

    /** The initiator cancels its callback, at any time. */
    method CancelCallback()
      requires Owned()
      modifies `canceled
      ensures Owned() && canceled
      ensures old(Waiting()) ==> Waiting()
      ensures old(Ended()) ==> Ended()
    {
      canceled := true;
    }
  }

  /** What can happen to a started opener. */
  datatype Happening =
    | SleepOver(canOpen: bool, result: ConnectResult)
    | Writable(result: ConnectResult)
    | TimesOut
    | ClosedUnderUs
    | Aborted(inCall: bool)
    | Cancelled

  /**
   The life of an opener under any sequence of happenings; those that its registered handlers
   rule out, and those after its end, do not reach it.
   */
  method Life(retries: int, canOpen: bool, result: ConnectResult, happenings: seq<Happening>) returns (o: Opener)
    ensures fresh(o) && o.connectRetries == retries
    ensures o.Ended() || o.Waiting()
    ensures o.failRetries <= if retries < 1 then 1 else retries
    ensures o.deleted ==> o.closed + o.kept == Numbered(o.nextFd) && (!o.canceled ==> |o.answers| == 1)
  {
    o := new Opener(retries);
    o.Start(canOpen, result);
    for i := 0 to |happenings|
      invariant fresh(o) && o.connectRetries == retries && (o.Ended() || o.Waiting())
    {
      if o.deleted {
        return;
      }
      match happenings[i] {
        case SleepOver(open, res) => if o.sleeping { o.Restart(open, res); }
        case Writable(res) => if o.writeHandler { o.RetryConnect(res); }
        case TimesOut => if o.timeoutSet { o.Timeout(); }
        case ClosedUnderUs => if o.earlyAbortSet { o.EarlyAbort(); }
        case Aborted(inCall) => o.NoteAbort(inCall);
        case Cancelled => o.CancelCallback();
      }
    }
  }
}
