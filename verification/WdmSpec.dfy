/**
 * The WDM device and what each section under its spinlock does to it: the driver's side of
 * SendEncapsulatedCommand, GetEncapsulatedResponse and ResponseAvailable (sections 6.2.1,
 * 6.2.2 and 6.3.2 of USB CDC 1.2).
 */
module WdmSpec {
  import opened Bytes

  const EPERM := -1
  const ENOENT := -2
  const EINTR := -4
  const EIO := -5
  const ENOMEM := -12
  const EAGAIN := -11
  const EFAULT := -14
  const EBUSY := -16
  const ENODEV := -19
  const EPIPE := -32
  const ECONNRESET := -104
  const ESHUTDOWN := -108
  const ERESTARTSYS := -512

  /** The fields of struct wdm_device that responses go through. */
  datatype Dev = Dev(
    disconnecting: bool,   // WDM_DISCONNECTING
    read: bool,            // WDM_READ
    intStall: bool,        // WDM_INT_STALL
    responding: bool,      // WDM_RESPONDING
    resetting: bool,       // WDM_RESETTING
    overflow: bool,        // WDM_OVERFLOW
    ubuf: seq<Byte>,       // wMaxCommand bytes
    length: nat,
    reslength: nat,
    respCount: nat,        // resp_count
    rerr: int
  ) {
    predicate Valid() { length <= |ubuf| }

    /** The bytes that wait for a reader. */
    function Waiting(): seq<Byte>
      requires Valid()
    {
      ubuf[..length]
    }
  }

  /** No byte has moved. */
  predicate SameBuffer(d: Dev, r: Dev) {
    r.ubuf == d.ubuf && r.length == d.length && r.reslength == d.reslength
  }

  function NewDev(wMaxCommand: nat): (d: Dev)
    ensures d.Valid() && d.Waiting() == []
  {
    Dev(false, false, false, false, false, false, Zeros(wMaxCommand), 0, 0, 0, 0)
  }

  // ----- completion of a response -----

  /** The URB was killed or the device is gone. */
  predicate Unlinked(status: int) {
    status == ENOENT || status == ECONNRESET || status == ESHUTDOWN
  }

  /** The response is appended: it fits and nothing was lost before it. */
  predicate Accepts(d: Dev, status: int, data: seq<Byte>) {
    !Unlinked(status) && |data| + d.length <= |d.ubuf| && !d.overflow
  }

  /** The response is lost for want of room, or because one before it was. */
  predicate Discards(d: Dev, status: int, data: seq<Byte>) {
    !Unlinked(status) && (|data| + d.length > |d.ubuf| || d.overflow)
  }

  function Receive(d: Dev, data: seq<Byte>): (r: Dev)
    requires d.Valid()
    ensures r.Valid() && d.length <= r.length
    ensures r.responding == d.responding && r.respCount == d.respCount && r.rerr == d.rerr && r.read == d.read
  {
    if |data| + d.length > |d.ubuf| then d.(overflow := true)
    else if d.overflow then d
    else d.(ubuf := Patch(d.ubuf, d.length, data), length := d.length + |data|, reslength := |data|)
  }

  /** Only the first error is kept, and a stall is no error. */
  function NoteError(d: Dev, status: int): (r: Dev)
    ensures SameBuffer(d, r) && r.overflow == d.overflow
  {
    if d.rerr == 0 && status != EPIPE then d.(rerr := status) else d
  }

  /** What wdm_in_callback does before it decides whom to wake up. */
  function Completed(d: Dev, status: int, data: seq<Byte>): (r: Dev)
    requires d.Valid()
    ensures r.Valid() && d.length <= r.length
  {
    var d1 := d.(responding := false);
    if Unlinked(status) then d1 else Receive(NoteError(d1, status), data)
  }

  /** wdm_in_callback; the flag says whether service_interrupt_work is scheduled. */
  function InCallback(d: Dev, status: int, data: seq<Byte>): (r: (Dev, bool))
    requires d.Valid()
    ensures r.0.Valid() && d.length <= r.0.length
  {
    var d1 := Completed(d, status, data);
    if d1.rerr != 0 then (d1, true) else (d1.(read := true), false)
  }

  // ----- notifications -----

  /** The locked section of wdm_int_callback; the flag says whether the response URB is submitted. */
  function Notified(d: Dev): (r: (Dev, bool))
    ensures SameBuffer(d, r.0) && r.0.overflow == d.overflow && r.0.rerr == d.rerr
  {
    (d.(responding := true, respCount := d.respCount + 1),
     d.respCount == 0 && !d.responding && !d.disconnecting)
  }

  // ----- service_outstanding_interrupt -----

  datatype Service = Done(rv: int) | Submit

  /** Up to the submit, which happens without the lock. */
  function ServiceBegin(d: Dev): (r: (Dev, Service))
    ensures SameBuffer(d, r.0) && r.0.overflow == d.overflow && r.0.rerr == d.rerr
  {
    if d.respCount == 0 then (d, Done(0))
    else
      var d1 := d.(respCount := d.respCount - 1);
      if d1.respCount == 0 then (d1, Done(0))
      else if d1.disconnecting then (d1, Done(ENODEV))
      else if d1.resetting then (d1, Done(EIO))
      else (d1.(responding := true), Submit)
  }

  /** From the moment the lock is taken again. */
  function ServiceEnd(d: Dev, rv: int): (r: Dev)
    ensures SameBuffer(d, r) && r.overflow == d.overflow && r.rerr == d.rerr
  {
    if rv != 0 then d.(responding := false, respCount := 0) else d
  }

  // ----- wdm_read -----

  datatype Check = Failed(rerr: int) | LostRace | ZeroLength | Ready

  /** What the locked check of wdm_read decides. */
  function CheckOf(d: Dev): Check {
    if d.rerr != 0 then Failed(d.rerr)
    else if !d.read then LostRace
    else if d.reslength == 0 then ZeroLength
    else Ready
  }

  function AfterCheck(d: Dev): (r: Dev)
    ensures SameBuffer(d, r) && r.overflow == d.overflow
    ensures r.respCount == d.respCount && r.responding == d.responding && r.disconnecting == d.disconnecting
  {
    match CheckOf(d)
    case Failed(_) => d.(rerr := 0)
    case ZeroLength => d.(read := false)
    case _ => d
  }

  /** The bytes from `n` on move to the front; what is behind them stays. */
  function ShiftLeft(u: seq<Byte>, length: nat, n: nat): (r: seq<Byte>)
    requires n <= length <= |u|
    ensures |r| == |u|
    ensures r[..length - n] == u[n..length]
  {
    seq(|u|, i requires 0 <= i < |u| => if i < length - n then u[i + n] else u[i])
  }

  /** Removes the bytes that were copied; the flag says that the buffer is empty now. */
  function Consume(d: Dev, n: nat): (r: (Dev, bool))
    requires d.Valid() && n <= d.length
    ensures r.0.Valid() && r.0.overflow == d.overflow && r.0.rerr == d.rerr && r.0.reslength == d.reslength
  {
    var d1 := d.(ubuf := ShiftLeft(d.ubuf, d.length, n), length := d.length - n);
    if d1.length == 0 then (d1.(read := false), true) else (d1, false)
  }

  // ----- reset -----

  /** The locked section of wdm_pre_reset. */
  function PreReset(d: Dev): (r: Dev)
    ensures SameBuffer(d, r) && r.overflow == d.overflow
  {
    d.(resetting := true, read := true, rerr := EINTR)
  }
}
