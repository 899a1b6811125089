/** The header of a downlink block, and for whom the block is. */
module GprsHeaders {
  import opened GprsSlots
  import opened Gprs

  /** The fields of the header in section 10.2.1 and section 10.3.1 of 3GPP TS 44.060. */
  datatype Header =
    | DataHeader(rrbp: nat, sp: nat, usf: nat, pr: nat, tfi: nat, fbi: nat)
    | ControlHeader(rrbp: nat, sp: nat, usf: nat, octet: nat)
    | ControlOptHeader(rrbp: nat, sp: nat, usf: nat, octet: nat, pr: nat, tfi: nat, d: nat)

  ghost predicate InRange(h: Header)
  {
    && h.rrbp < 4 && h.sp < 2 && h.usf < 8
    && (h.DataHeader? ==> h.pr < 4 && h.tfi < 32 && h.fbi < 2)
    && (h.ControlHeader? ==> h.octet < 256)
    && (h.ControlOptHeader? ==> h.octet < 256 && h.pr < 4 && h.tfi < 32 && h.d < 2)
  }

  /** The payload type is in the two highest bits, and the TFI between the two highest bits
      and the lowest one of its octet. */
  ghost predicate Carries(data: seq<byte>, h: Header)
  {
    && |data| >= 3
    && match h
       case DataHeader(rrbp, sp, usf, pr, tfi, fbi) =>
         data[0] == rrbp * 16 + sp * 8 + usf && data[1] == pr * 64 + tfi * 2 + fbi
       case ControlHeader(rrbp, sp, usf, octet) =>
         data[0] == 64 + rrbp * 16 + sp * 8 + usf && data[1] == octet
       case ControlOptHeader(rrbp, sp, usf, octet, pr, tfi, d) =>
         data[0] == 128 + rrbp * 16 + sp * 8 + usf && data[1] == octet && data[2] == pr * 64 + tfi * 2 + d
  }

  /** Some active downlink TBF on slot k has the TFI. */
  ghost predicate Receives(active: seq<Tbf>, k: int, tfi: nat)
  {
    exists i :: 0 <= i < |active| && !active[i].uplink && k in active[i].slots && active[i].tfi == tfi
  }

  /** A block is for the slot's TBF with the TFI in its header; a control block without one is
      for everyone. The uplink state flag is in the lowest three bits. */
  lemma AddressedByHeader(active: seq<Tbf>, k: int, data: seq<byte>, h: Header)
    requires InRange(h) && Carries(data, h)
    ensures Addressed(active, k, data) <==> h.ControlHeader? || Receives(active, k, h.tfi)
    ensures data[0] % 8 == h.usf
  {
    Split64(data[0], h);
    if !h.ControlHeader? {
      TfiField(if h.DataHeader? then data[1] else data[2], h.pr, h.tfi, if h.DataHeader? then h.fbi else h.d);
      if t :| t in active && !t.uplink && k in t.slots && t.tfi == h.tfi {
        var i :| 0 <= i < |active| && active[i] == t;
        assert active[i].tfi == h.tfi;
      }
    }
  }

  lemma Split64(octet: byte, h: Header)
    requires InRange(h)
    requires octet == (if h.DataHeader? then 0 else if h.ControlHeader? then 64 else 128) + h.rrbp * 16 + h.sp * 8 + h.usf
    ensures octet / 64 == if h.DataHeader? then DATA_BLOCK else if h.ControlHeader? then CONTROL_BLOCK else CONTROL_BLOCK_OPT
    ensures octet % 8 == h.usf
  {
  }

  lemma TfiField(octet: byte, pr: nat, tfi: nat, low: nat)
    requires octet == pr * 64 + tfi * 2 + low && pr < 4 && tfi < 32 && low < 2
    ensures octet / 2 % 32 == tfi
  {
  }

  /** Every block has such a header, except those with the reserved payload type, which are
      for no one. */
  lemma HeaderOf(active: seq<Tbf>, k: int, data: seq<byte>) returns (h: Header)
    requires |data| >= 3
    ensures if data[0] < 192 then InRange(h) && Carries(data, h) else !Addressed(active, k, data)
  {
    var rrbp, sp, usf := data[0] / 8 / 2 % 4, data[0] / 8 % 2, data[0] % 8;
    if data[0] < 64 {
      h := DataHeader(rrbp, sp, usf, data[1] / 2 / 32, data[1] / 2 % 32, data[1] % 2);
    } else if data[0] < 128 {
      h := ControlHeader(rrbp, sp, usf, data[1]);
    } else {
      h := ControlOptHeader(rrbp, sp, usf, data[1], data[2] / 2 / 32, data[2] / 2 % 32, data[2] % 2);
    }
  }
}
