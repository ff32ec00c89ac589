/** OrderRequest and OrderAck (apps/common/messages.hpp) as the bytes a little-endian host copies
    onto the wire, and what a request does to the set of live orders. */
module OrderMessages {
  import opened Words

  const REQUEST_LEN: nat := 40
  const WIDTH32: nat := 4
  const WIDTH64: nat := 8

  const NEW: Byte := 1
  const CANCEL: Byte := 2
  const REPLACE: Byte := 3

  datatype Request = Request(orderId: nat, target: nat, instrument: nat, action: Byte, side: Byte,
                             price: nat, quantity: nat, sendTs: nat)
  {
    predicate Fits() {
      && orderId < 0x1_0000_0000_0000_0000
      && target < 0x1_0000_0000_0000_0000
      && instrument < 0x1_0000_0000
      && price < 0x1_0000_0000
      && quantity < 0x1_0000_0000
      && sendTs < 0x1_0000_0000_0000_0000
    }
  }

  /** The j-th byte of `n`, counted from the least significant one. */
  function ByteOf(n: nat, j: nat): Byte
    decreases j
  {
    if j == 0 then n % 256 else ByteOf(n / 256, j - 1)
  }

  /** The little-endian number in the `k` bytes of `b` from `i` on. */
  function LeAt(b: seq<Byte>, i: nat, k: nat): nat
    requires i + k <= |b|
    decreases k
  {
    if k == 0 then 0 else b[i] + 256 * LeAt(b, i + 1, k - 1)
  }

  function Pow256(k: nat): nat {
    if k == 0 then 1 else 256 * Pow256(k - 1)
  }

  lemma {:induction false} LeAtOf(b: seq<Byte>, i: nat, k: nat, n: nat)
    requires i + k <= |b| && n < Pow256(k)
    requires forall j :: 0 <= j < k ==> b[i + j] == ByteOf(n, j)
    ensures LeAt(b, i, k) == n
    decreases k
  {
    if k > 0 {
      assert ByteOf(n, 0) == b[i + 0];
      forall j | 0 <= j < k - 1
        ensures b[i + 1 + j] == ByteOf(n / 256, j)
      {
        assert ByteOf(n, j + 1) == b[i + (j + 1)];
      }
      LeAtOf(b, i + 1, k - 1, n / 256);
    }
  }

  lemma Widths()
    ensures Pow256(WIDTH32) == 0x1_0000_0000
    ensures Pow256(WIDTH64) == 0x1_0000_0000_0000_0000
  {
    assert Pow256(4) == 0x1_0000_0000;
    assert Pow256(8) == 0x1_0000_0000_0000_0000;
  }

  /** The struct layout, with two bytes of padding after `side`. */
  function ByteAt(r: Request, i: nat): Byte {
    if i < 8 then ByteOf(r.orderId, i)
    else if i < 16 then ByteOf(r.target, i - 8)
    else if i < 20 then ByteOf(r.instrument, i - 16)
    else if i == 20 then r.action
    else if i == 21 then r.side
    else if i < 24 then 0
    else if i < 28 then ByteOf(r.price, i - 24)
    else if i < 32 then ByteOf(r.quantity, i - 28)
    else ByteOf(r.sendTs, i - 32)
  }

  function Encode(r: Request): (b: seq<Byte>)
    ensures |b| == 40
  {
    seq(40, i requires 0 <= i < 40 => ByteAt(r, i))
  }

  function Decode(b: seq<Byte>): Request
    requires |b| >= 40
  {
    Request(LeAt(b, 0, WIDTH64), LeAt(b, 8, WIDTH64), LeAt(b, 16, WIDTH32), b[20], b[21],
            LeAt(b, 24, WIDTH32), LeAt(b, 28, WIDTH32), LeAt(b, 32, WIDTH64))
  }

  lemma FirstFields(r: Request)
    requires r.Fits()
    ensures LeAt(Encode(r), 0, WIDTH64) == r.orderId
    ensures LeAt(Encode(r), 8, WIDTH64) == r.target
    ensures LeAt(Encode(r), 16, WIDTH32) == r.instrument
  {
    var b := Encode(r);
    Widths();
    LeAtOf(b, 0, WIDTH64, r.orderId);
    LeAtOf(b, 8, WIDTH64, r.target);
    LeAtOf(b, 16, WIDTH32, r.instrument);
  }

  lemma LastFields(r: Request)
    requires r.Fits()
    ensures LeAt(Encode(r), 24, WIDTH32) == r.price
    ensures LeAt(Encode(r), 28, WIDTH32) == r.quantity
    ensures LeAt(Encode(r), 32, WIDTH64) == r.sendTs
  {
    var b := Encode(r);
    Widths();
    LeAtOf(b, 24, WIDTH32, r.price);
    LeAtOf(b, 28, WIDTH32, r.quantity);
    LeAtOf(b, 32, WIDTH64, r.sendTs);
  }

  lemma RequestRoundTrip(r: Request)
    requires r.Fits()
    ensures Decode(Encode(r)) == r
  {
    FirstFields(r);
    LastFields(r);
  }

  lemma {:induction false} LeAtBound(b: seq<Byte>, i: nat, k: nat)
    requires i + k <= |b|
    ensures LeAt(b, i, k) < Pow256(k)
    decreases k
  {
    if k > 0 {
      LeAtBound(b, i + 1, k - 1);
    }
  }

  lemma LowByte(x: Byte, rest: nat)
    ensures (x + 256 * rest) % 256 == x && (x + 256 * rest) / 256 == rest
  {
  }

  lemma {:induction false} ByteOfLe(b: seq<Byte>, i: nat, k: nat, j: nat)
    requires i + k <= |b| && j < k
    ensures ByteOf(LeAt(b, i, k), j) == b[i + j]
    decreases k
  {
    LowByte(b[i], LeAt(b, i + 1, k - 1));
    if j > 0 {
      ByteOfLe(b, i + 1, k - 1, j - 1);
    }
  }

  lemma DecodedFits(b: seq<Byte>)
    requires |b| >= 40
    ensures Decode(b).Fits()
  {
    Widths();
    LeAtBound(b, 0, WIDTH64);
    LeAtBound(b, 8, WIDTH64);
    LeAtBound(b, 16, WIDTH32);
    LeAtBound(b, 24, WIDTH32);
    LeAtBound(b, 28, WIDTH32);
    LeAtBound(b, 32, WIDTH64);
  }

  lemma DecodedByte(b: seq<Byte>, i: nat)
    requires |b| >= 40 && i < 40 && i != 22 && i != 23
    ensures ByteAt(Decode(b), i) == b[i]
  {
    if i < 8 {
      ByteOfLe(b, 0, WIDTH64, i);
    } else if i < 16 {
      ByteOfLe(b, 8, WIDTH64, i - 8);
    } else if i < 20 {
      ByteOfLe(b, 16, WIDTH32, i - 16);
    } else if 24 <= i < 28 {
      ByteOfLe(b, 24, WIDTH32, i - 24);
    } else if 28 <= i < 32 {
      ByteOfLe(b, 28, WIDTH32, i - 28);
    } else if 32 <= i {
      ByteOfLe(b, 32, WIDTH64, i - 32);
    }
  }

  /** The other direction: every byte but the padding is recovered, whatever was received, and bytes past
      the struct do not matter. */
  lemma BytesRoundTrip(b: seq<Byte>)
    requires |b| >= 40
    ensures Decode(b).Fits() && Encode(Decode(b)) == b[..22] + [0, 0] + b[24..40]
  {
    DecodedFits(b);
    forall i | 0 <= i < 40 && i != 22 && i != 23
      ensures ByteAt(Decode(b), i) == b[i]
    {
      DecodedByte(b, i);
    }
  }

  function AckByteAt(orderId: nat, accepted: bool, i: nat): Byte {
    if i < 8 then ByteOf(orderId, i)
    else if i < 16 then ByteOf(Add64(orderId, 1000000), i - 8)
    else if i == 16 && accepted then 1
    else 0
  }

  function EncodeAck(orderId: nat, accepted: bool): (b: seq<Byte>)
    ensures |b| == 24
  {
    seq(24, i requires 0 <= i < 24 => AckByteAt(orderId, accepted, i))
  }

  /** The answer's struct layout: the client's order number, the server's, the accepted flag and padding. */
  ghost predicate ReadsAsAck(b: seq<Byte>, orderId: nat, accepted: bool) {
    && |b| == 24
    && LeAt(b, 0, WIDTH64) == orderId
    && LeAt(b, 8, WIDTH64) == (orderId + 1000000) % 0x1_0000_0000_0000_0000
    && b[16] == (if accepted then 1 else 0)
    && forall i :: 17 <= i < 24 ==> b[i] == 0
  }

  lemma AckReads(orderId: nat, accepted: bool)
    requires orderId < 0x1_0000_0000_0000_0000
    ensures ReadsAsAck(EncodeAck(orderId, accepted), orderId, accepted)
  {
    AckNumbers(orderId, accepted);
  }

  lemma AckNumbers(orderId: nat, accepted: bool)
    requires orderId < 0x1_0000_0000_0000_0000
    ensures LeAt(EncodeAck(orderId, accepted), 0, WIDTH64) == orderId
    ensures LeAt(EncodeAck(orderId, accepted), 8, WIDTH64) == (orderId + 1000000) % 0x1_0000_0000_0000_0000
  {
    var b := EncodeAck(orderId, accepted);
    var server := Add64(orderId, 1000000);
    Widths();
    LeAtOf(b, 0, WIDTH64, orderId);
    LeAtOf(b, 8, WIDTH64, server);
  }

  /** Whether the gateway accepts `r` when `live` are the live orders. */
  predicate Accepts(live: set<nat>, r: Request) {
    r.action == CANCEL || r.action == REPLACE ==> r.target in live
  }

  function Effect(live: set<nat>, r: Request): set<nat> {
    if r.action == NEW then live + {r.orderId}
    else if r.action == CANCEL then live - {r.target}
    else live
  }

  /** The live orders after a whole sequence of requests. */
  ghost function Effects(rs: seq<Request>): set<nat> {
    if rs == [] then {} else Effect(Effects(rs[..|rs| - 1]), rs[|rs| - 1])
  }

  lemma EffectsAppend(rs: seq<Request>, r: Request)
    ensures Effects(rs + [r]) == Effect(Effects(rs), r)
  {
    assert (rs + [r])[..|rs|] == rs;
  }

  /** Request `i` opens order `o` and no later request cancels it. */
  ghost predicate OpensForGood(rs: seq<Request>, i: nat, o: nat) {
    && i < |rs| && rs[i].action == NEW && rs[i].orderId == o
    && forall j :: i < j < |rs| ==> !(rs[j].action == CANCEL && rs[j].target == o)
  }

  /** An order is live exactly when some New opened it and no Cancel of it came after. */
  lemma {:induction false} LiveIffOpened(rs: seq<Request>, o: nat)
    ensures o in Effects(rs) <==> exists i: nat :: OpensForGood(rs, i, o)
  {
    if rs != [] {
      var n := |rs| - 1;
      var init, last := rs[..n], rs[n];
      LiveIffOpened(init, o);
      if o in Effects(rs) {
        if last.action == NEW && last.orderId == o {
          assert OpensForGood(rs, n, o);
        } else {
          var i: nat :| OpensForGood(init, i, o);
          assert OpensForGood(rs, i, o);
        }
      }
      if i: nat :| OpensForGood(rs, i, o) {
        if i < n {
          assert OpensForGood(init, i, o);
        }
      }
    }
  }
}
