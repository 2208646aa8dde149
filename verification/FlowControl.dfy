/** The flow-control part of a circuit, updated in place. Each method is proved against
    the functions of SendmeSpec. */
module FlowControl {
  import opened Bytes
  import opened RelayCodec
  import opened CCParams
  import opened VegasSpec
  import opened VegasState
  import opened SendmeSpec

  class FlowControl {
    var packageWindow: int
    var deliverWindow: int
    var sendmeInc: int
    var sendmeReceived: int
    var sendmeSent: int
    var sendmeExpected: seq<seq<byte>>
    var ccParams: CCParams
    var vegas: VegasState?

    ghost function View(): Flow
      reads this, vegas
    {
      Flow(packageWindow, deliverWindow, sendmeInc, sendmeReceived, sendmeSent, sendmeExpected,
           if vegas == null then None else Some(vegas.View()))
    }

    constructor ()
      ensures View() == NewFlow() && vegas == null && ccParams == DefaultExit()
    {
      packageWindow, deliverWindow := CLASSIC_WINDOW, CLASSIC_WINDOW;
      sendmeInc, sendmeReceived, sendmeSent := 0, 0, 0;
      sendmeExpected := [];
      ccParams := DefaultExit();
      vegas := null;
    }

    method EnableCongestionControl(inc: int)
      modifies this
      ensures View() == Enable(old(View()), old(ccParams), inc)
      ensures 1 <= inc <= 250 ==> vegas != null && fresh(vegas)
      ensures !(1 <= inc <= 250) ==> vegas == old(vegas)
    {
      if inc < 1 || inc > 250 {
        return;
      }
      sendmeInc := inc;
      if ccParams.cwndInit < 1 {
        ccParams := DefaultExit();
      }
      vegas := new VegasState(ccParams, inc);
      packageWindow := vegas.cwnd;
      deliverWindow := vegas.cwnd;
      sendmeReceived := 0;
      sendmeExpected := [];
    }

    method DisableCongestionControl()
      modifies this
      ensures View() == Disable(old(View())) && ccParams == old(ccParams)
    {
      vegas := null;
      sendmeInc := 0;
      packageWindow, deliverWindow := CLASSIC_WINDOW, CLASSIC_WINDOW;
      sendmeReceived := 0;
      sendmeExpected := [];
    }

    /** sendmeIncrementLocked */
    function SendmeIncrement(): int
      reads this
      ensures SendmeIncrement() >= 1
    {
      if sendmeInc > 0 then sendmeInc else CLASSIC_INCREMENT
    }

    method DecrementPackageWindowForSendme() returns (ok: bool, record: bool)
      requires vegas != null ==> vegas.sendmeInc >= 1
      modifies this`packageWindow, vegas
      ensures ok <==> Reserve(old(View())).Some?
      ensures ok ==> Some((View(), record)) == Reserve(old(View()))
      ensures !ok ==> View() == old(View())
    {
      record := false;
      if vegas != null {
        if vegas.inflight >= vegas.cwnd {
          return false, false;
        }
        vegas.inflight := vegas.inflight + 1;
        packageWindow := if vegas.inflight >= vegas.cwnd then 0 else vegas.cwnd - vegas.inflight;
        return true, vegas.inflight % vegas.sendmeInc == 0;
      }
      if packageWindow <= 0 {
        return false, false;
      }
      packageWindow := packageWindow - 1;
      return true, packageWindow % SendmeIncrement() == 0;
    }

    method RefundPackageWindow()
      modifies this`packageWindow, vegas
      ensures View() == Refund(old(View()))
    {
      if vegas != null {
        if vegas.inflight > 0 {
          vegas.inflight := vegas.inflight - 1;
        }
        packageWindow := if vegas.inflight >= vegas.cwnd then 0 else vegas.cwnd - vegas.inflight;
        return;
      }
      packageWindow := packageWindow + 1;
    }

    method RecordSendmeTag(raw: seq<byte>)
      modifies this`sendmeExpected
      ensures View() == Record(old(View()), raw)
    {
      var tag := AuthTag(raw);
      if tag.Some? {
        sendmeExpected := sendmeExpected + [tag.value];
      }
    }

    method DecrementDeliverWindowAndTakeSendme() returns (ok: bool, send: bool)
      modifies this`deliverWindow, this`sendmeReceived
      ensures ok <==> Take(old(View())).Some?
      ensures ok ==> Some((View(), send)) == Take(old(View()))
      ensures !ok ==> View() == old(View())
    {
      if deliverWindow <= 0 {
        return false, false;
      }
      deliverWindow := deliverWindow - 1;
      sendmeReceived := sendmeReceived + 1;
      var inc := SendmeIncrement();
      if sendmeReceived >= inc {
        sendmeReceived := sendmeReceived - inc;
        return true, true;
      }
      return true, false;
    }

    /** sendCircuitSendme. The deliver window is raised before the send, and stays raised
        should the circuit refuse the cell (`sent` false). */
    method SendCircuitSendme(raw: seq<byte>, sent: bool) returns (r: Result<seq<byte>, SendmeError>)
      modifies this`sendmeSent, this`deliverWindow
      ensures r.Ok? <==> sent && AuthTag(raw).Some?
      ensures r.Ok? ==> Acknowledge(old(View()), raw) == Ok((View(), r.value))
      ensures AuthTag(raw).None? ==> Acknowledge(old(View()), raw).Err? && r == Err(NoTag) && View() == old(View())
      ensures AuthTag(raw).Some? && !sent ==> r == Err(NotSent) && View() == Acknowledge(old(View()), raw).value.0
    {
      var tag := AuthTag(raw);
      if tag.None? {
        return Err(NoTag);
      }
      var body := EncodeSendmeV1(tag.value);
      sendmeSent := sendmeSent + 1;
      deliverWindow := deliverWindow + SendmeIncrement();
      if !sent {
        return Err(NotSent);
      }
      return Ok(body.value);
    }

    /** processCircuitSendme. `rtt` and `blocked` are what the clock and the connection say. */
    method ProcessCircuitSendme(payload: seq<byte>, rtt: int, blocked: bool, clock: MonotimeClock)
      returns (r: Option<SendmeError>)
      requires VegasOk(View())
      modifies this`sendmeExpected, this`packageWindow, vegas, clock
      ensures var spec := Accept(old(View()), payload, Sample(rtt, blocked, old(clock.broken)));
        match r
        case None => spec == Ok(View())
        case Some(e) => spec == Err(e) && View() == old(View())
    {
      var decoded := DecodeSendme(payload);
      if decoded.Err? {
        return Some(BadPayload(decoded.error));
      }
      var (version, digest) := decoded.value;
      if version < 1 {
        return Some(OldVersion);
      }
      if |sendmeExpected| == 0 {
        return Some(Unexpected);
      }
      if sendmeExpected[0] != digest {
        return Some(DigestMismatch);
      }
      sendmeExpected := sendmeExpected[1..];
      if vegas != null {
        vegas.blocked := blocked;
        vegas.ProcessSendme(rtt, clock);
        packageWindow := if vegas.inflight >= vegas.cwnd then 0 else vegas.cwnd - vegas.inflight;
        return None;
      }
      packageWindow := packageWindow + SendmeIncrement();
      return None;
    }
  }
}
