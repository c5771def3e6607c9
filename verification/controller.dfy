/**
  The controller abstraction, the closed dispatch from device selector to
  controller, and `write_config`, which opens the controller's HID device and
  writes the encoded packets in order, stopping at the first failure.
 */
module Controller {
  import opened Types
  import GigabyteTrx40
  import AsusX670EF

  /** Every implementation of the HID controller interface. */
  datatype HidController = GigabyteTrx40AorusMaster | AsusRogStrixX670EF {

    /** HID vendor ID. */
    function VendorId(): (r: U16)
      ensures r == 0x048d <==> GigabyteTrx40AorusMaster?
      ensures r == 0x0B05 <==> AsusRogStrixX670EF?
    {
      match this
      case GigabyteTrx40AorusMaster => GigabyteTrx40.VendorId
      case AsusRogStrixX670EF => AsusX670EF.VendorId
    }

    /** HID product ID. */
    function ProductId(): (r: U16)
      ensures r == 0x8297 <==> GigabyteTrx40AorusMaster?
      ensures r == 0x19AF <==> AsusRogStrixX670EF?
    {
      match this
      case GigabyteTrx40AorusMaster => GigabyteTrx40.ProductId
      case AsusRogStrixX670EF => AsusX670EF.ProductId
    }

    /** Packets for a configuration, to be written in order, or the reason
        the chip cannot represent it. A result holds packets or an error,
        never both; no packet is empty. */
    function ConfigBytes(c: Config): (r: Result<seq<Packet>>)
      ensures GigabyteTrx40AorusMaster? ==>
        || (r.Ok? && |r.value| == 1 && |r.value[0]| == 54)
        || r == Err(UnsupportedEffect(c.effect))
      ensures AsusRogStrixX670EF? ==>
        || (r.Ok? && |r.value| == 3)
        || r == Err(UnsupportedZone(c.zone))
      ensures r.Ok? ==> forall p :: p in r.value ==> |p| > 0
    {
      match this
      case GigabyteTrx40AorusMaster => GigabyteTrx40.ConfigBytes(c)
      case AsusRogStrixX670EF => AsusX670EF.ConfigBytes(c)
    }
  }

  /** `RgbDevice::controller`: the closed mapping from device to controller. */
  function ControllerFor(d: RgbDevice): (k: HidController)
    ensures k.GigabyteTrx40AorusMaster? <==> d.Trx40?
    ensures k.AsusRogStrixX670EF? <==> d.X670EF?
  {
    match d
    case Trx40 => GigabyteTrx40AorusMaster
    case X670EF => AsusRogStrixX670EF
  }

  /** Dispatch sends each device to its own vendor encoder. */
  lemma DispatchSelectsEncoder(d: RgbDevice, c: Config)
    ensures d.Trx40? ==> ControllerFor(d).ConfigBytes(c) == GigabyteTrx40.ConfigBytes(c)
    ensures d.X670EF? ==> ControllerFor(d).ConfigBytes(c) == AsusX670EF.ConfigBytes(c)
  {
  }

  /** Distinct devices are reached through distinct HID id pairs, so the
      device opened is always the one the configuration names. */
  lemma DispatchIdsDistinct(d: RgbDevice, e: RgbDevice)
    ensures ((ControllerFor(d).VendorId(), ControllerFor(d).ProductId())
             == (ControllerFor(e).VendorId(), ControllerFor(e).ProductId())) <==> d == e
  {
  }

  // ---------------------------------------------------------------------
  // Writing a configuration.
  // ---------------------------------------------------------------------

  /** The HID transport as `write_config` sees it: the id pairs whose device
      can be opened, and the outcome of each successive write to the opened
      device. A write past the end of `writes` fails. */
  datatype Transport = Transport(openable: set<(U16, U16)>, writes: seq<bool>)

  predicate Opens(t: Transport, k: HidController) {
    (k.VendorId(), k.ProductId()) in t.openable
  }

  predicate WriteSucceeds(t: Transport, index: nat) {
    index < |t.writes| && t.writes[index]
  }

  datatype Failure = OpenFailed | Encoding(error: Error) | WriteFailed

  datatype Outcome = Applied | Failed(failure: Failure)

  /** `write_config`: open the device of the configured controller, encode,
      then write every packet in order. Returns the outcome and the packets
      whose write was attempted, in order. */
  method WriteConfig(c: Config, t: Transport) returns (outcome: Outcome, attempted: seq<Packet>)
    ensures !Opens(t, ControllerFor(c.device)) ==> outcome == Failed(OpenFailed) && attempted == []
    ensures Opens(t, ControllerFor(c.device)) && ControllerFor(c.device).ConfigBytes(c).Err? ==>
              && outcome == Failed(Encoding(ControllerFor(c.device).ConfigBytes(c).error))
              && attempted == []
    ensures Opens(t, ControllerFor(c.device)) && ControllerFor(c.device).ConfigBytes(c).Ok? ==>
              var packets := ControllerFor(c.device).ConfigBytes(c).value;
              && |attempted| <= |packets|
              && attempted == packets[..|attempted|]
              && (forall k :: 0 <= k < |attempted| - 1 ==> WriteSucceeds(t, k))
              && (outcome == Applied ==> attempted == packets && forall k :: 0 <= k < |packets| ==> WriteSucceeds(t, k))
              && (outcome != Applied ==> outcome == Failed(WriteFailed) && |attempted| > 0 && !WriteSucceeds(t, |attempted| - 1))
  {
    var controller := ControllerFor(c.device);
    if !Opens(t, controller) {
      return Failed(OpenFailed), [];
    }
    var encoded := controller.ConfigBytes(c);
    if encoded.Err? {
      return Failed(Encoding(encoded.error)), [];
    }
    var packets := encoded.value;
    attempted := [];
    var i := 0;
    while i < |packets|
      invariant i <= |packets|
      invariant attempted == packets[..i]
      invariant forall k :: 0 <= k < i ==> WriteSucceeds(t, k)
    {
      attempted := attempted + [packets[i]];
      if !WriteSucceeds(t, i) {
        return Failed(WriteFailed), attempted;
      }
      i := i + 1;
    }
    return Applied, attempted;
  }
}
