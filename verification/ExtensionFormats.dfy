/** What header extension encryption does to an extension that is put together from its elements, for each
    value of the profile field (sections 4.2 and 4.3 of RFC 5285, section 3 of RFC 6904). */
module ExtensionFormats {
  import opened Octets
  import opened SrtpStatus
  import opened HeaderExtension

  // ----- Extensions as lists of elements

  /** An element and the padding behind it. */
  datatype Item = Item(id: nat, body: Octets, padding: nat)

  /** One octet for identifier and length less one, or an octet each. */
  predicate Writable(wide: bool, x: Item) {
    if wide then x.id < 256 && |x.body| < 256 else x.id < 15 && 1 <= |x.body| <= 16
  }

  function Header(wide: bool, x: Item): (r: Octets)
    requires Writable(wide, x)
    ensures |r| == if wide then 2 else 1
  {
    if wide then [x.id, |x.body|] else [x.id * 16 + |x.body| - 1]
  }

  function Padding(n: nat): (r: Octets)
    ensures |r| == n
  {
    seq<Octet>(n, _ => 0)
  }

  function Written(wide: bool, x: Item): (r: Octets)
    requires Writable(wide, x)
    ensures |r| == (if wide then 2 else 1) + |x.body| + x.padding
  {
    Header(wide, x) + x.body + Padding(x.padding)
  }

  /** What is left when no element follows: nothing, or an element that is cut short, or the terminator of
      the short format, or a single octet in the long one. */
  predicate Ends(wide: bool, rest: Octets) {
    if wide then |rest| < 2 || |rest| < 2 + rest[1] as int
    else rest == [] || rest[0] / 16 == 15 || |rest| < rest[0] % 16 + 2
  }

  function EndStatus(wide: bool, rest: Octets): Status {
    if wide then if |rest| >= 2 && |rest| < 2 + rest[1] as int then ParseErr else Ok
    else if rest != [] && |rest| < rest[0] % 16 + 2 then ParseErr else Ok
  }

  predicate AllWritable(wide: bool, items: seq<Item>) {
    forall i | 0 <= i < |items| :: Writable(wide, items[i])
  }

  /** The whole extension. */
  function Assembled(wide: bool, items: seq<Item>, rest: Octets): Octets
    requires AllWritable(wide, items)
  {
    if items == [] then rest else Written(wide, items[0]) + Assembled(wide, items[1..], rest)
  }

  /** Behind an element there is no zero octet that is not its padding. */
  predicate Separated(wide: bool, items: seq<Item>, rest: Octets)
    requires AllWritable(wide, items)
  {
    items != [] ==>
      var more := Assembled(wide, items[1..], rest);
      (more == [] || more[0] != 0) && Separated(wide, items[1..], rest)
  }

  // ----- The encrypted extension

  /** A listed element is combined with the keystream, whose position counts the header as well. */
  function EncryptedItem(wide: bool, ids: seq<int>, key: nat -> Octet, x: Item, at: nat): (r: Item)
    requires Writable(wide, x)
    ensures Writable(wide, r)
  {
    if x.id in ids then x.(body := XorWith(x.body, key, at + if wide then 2 else 1)) else x
  }

  /** The keystream runs over the octets of all elements, listed or not. */
  function Encrypted(wide: bool, ids: seq<int>, key: nat -> Octet, items: seq<Item>, at: nat): (r: seq<Item>)
    requires AllWritable(wide, items)
    ensures |r| == |items| && AllWritable(wide, r)
  {
    if items == [] then []
    else
      [EncryptedItem(wide, ids, key, items[0], at)]
      + Encrypted(wide, ids, key, items[1..], at + (if wide then 2 else 1) + |items[0].body|)
  }

  // ----- Agreement with the walk

  function FormatFor(wide: bool): Format {
    if wide then TwoByte else OneByte
  }

  lemma {:induction false} ZerosThen(n: nat, more: Octets)
    requires more == [] || more[0] != 0
    ensures LeadingZeros(Padding(n) + more) == n
  {
    var data := Padding(n) + more;
    if n > 0 {
      assert data[1..] == Padding(n - 1) + more;
      ZerosThen(n - 1, more);
    } else {
      assert data == more;
    }
  }

  lemma HeaderFields(wide: bool, x: Item, more: Octets)
    requires Writable(wide, x) && (more == [] || more[0] != 0)
    ensures var f, data, used := FormatFor(wide), Written(wide, x) + more, |Header(wide, x)| + |x.body|;
            && HeaderSize(f) == |Header(wide, x)| <= used <= |Written(wide, x)| <= |data|
            && ElementId(f, data) == x.id && ElementSize(f, data) == |x.body|
            && !Stops(f, data) && NextElement(f, data) == |Written(wide, x)|
            && data[..|Header(wide, x)|] == Header(wide, x) && data[|Header(wide, x)|..used] == x.body
            && data[used..|Written(wide, x)|] == Padding(x.padding) && data[|Written(wide, x)|..] == more
  {
    hide LeadingZeros;
    var data, h := Written(wide, x) + more, Header(wide, x);
    assert data[0] == h[0] && (wide ==> data[1] == h[1]);
    assert data[|h| + |x.body|..] == Padding(x.padding) + more;
    ZerosThen(x.padding, more);
  }

  lemma ItemIsMasked(wide: bool, ids: seq<int>, key: nat -> Octet, x: Item, at: nat)
    requires Writable(wide, x)
    ensures EncryptedItem(wide, ids, key, x, at)
            == x.(body := Masked(x.id in ids, x.body, key, at + |Header(wide, x)|))
    ensures var y := EncryptedItem(wide, ids, key, x, at); Header(wide, y) == Header(wide, x)
  {
  }

  lemma HeadIsWritten(wide: bool, ids: seq<int>, key: nat -> Octet, x: Item, more: Octets, at: nat)
    requires Writable(wide, x) && (more == [] || more[0] != 0)
    ensures var f, data, h := FormatFor(wide), Written(wide, x) + more, |Header(wide, x)|;
            !Stops(f, data) && Head(f, ids, key, data, at) == Written(wide, EncryptedItem(wide, ids, key, x, at))
  {
    hide LeadingZeros, ElementId, ElementSize, Stops, NextElement, EncryptedItem, Masked, Writable, Header, Head;
    HeaderFields(wide, x, more);
    ItemIsMasked(wide, ids, key, x, at);
    HeadParts(FormatFor(wide), ids, key, Written(wide, x) + more, at);
  }

  lemma WalkEnds(wide: bool, rest: Octets)
    ensures Ends(wide, rest) <==> Stops(FormatFor(wide), rest)
    ensures Ends(wide, rest) ==> StopStatus(FormatFor(wide), rest) == EndStatus(wide, rest)
  {
  }

  lemma {:induction false} WalkIsEncrypted(
    wide: bool, ids: seq<int>, key: nat -> Octet, items: seq<Item>, rest: Octets, at: nat)
    requires AllWritable(wide, items) && Separated(wide, items, rest) && Ends(wide, rest)
    ensures Transform(FormatFor(wide), ids, key, Assembled(wide, items, rest), at)
            == Result(Assembled(wide, Encrypted(wide, ids, key, items, at), rest), EndStatus(wide, rest))
    decreases |items|
  {
    hide Head, Stops, NextElement, ElementId, ElementSize, StopStatus, Written, Header, HeaderSize, Ends, EndStatus,
         Transform, EncryptedItem;
    var f, data := FormatFor(wide), Assembled(wide, items, rest);
    TransformUnfold(f, ids, key, data, at);
    if items == [] {
      WalkEnds(wide, rest);
    } else {
      var x, more := items[0], Assembled(wide, items[1..], rest);
      HeaderFields(wide, x, more);
      HeadIsWritten(wide, ids, key, x, more, at);
      WalkIsEncrypted(wide, ids, key, items[1..], rest, at + |Header(wide, x)| + |x.body|);
      var out := Encrypted(wide, ids, key, items, at);
      assert out[1..] == Encrypted(wide, ids, key, items[1..], at + |Header(wide, x)| + |x.body|);
    }
  }

  // ----- Every extension is put together in this way

  /** The element at the front. */
  function FirstItem(wide: bool, data: Octets): (x: Item)
    requires !Ends(wide, data)
    ensures Writable(wide, x) && |Written(wide, x)| <= |data| && data[..|Written(wide, x)|] == Written(wide, x)
    ensures |Written(wide, x)| < |data| ==> data[|Written(wide, x)|] != 0
  {
    var h := if wide then 2 else 1;
    var size: nat := if wide then data[1] else data[0] % 16 + 1;
    var zeros := LeadingZeros(data[h + size..]);
    var x := Item(if wide then data[0] else data[0] / 16, data[h..h + size], zeros);
    assert Header(wide, x) == data[..h];
    assert data[h + size..h + size + zeros] == Padding(zeros);
    assert data[..h + size + zeros] == data[..h] + data[h..h + size] + data[h + size..h + size + zeros];
    assert h + size + zeros < |data| ==> data[h + size + zeros] == data[h + size..][zeros];
    x
  }

  function Items(wide: bool, data: Octets): (r: (seq<Item>, Octets))
    decreases |data|
  {
    if Ends(wide, data) then ([], data)
    else
      var x := FirstItem(wide, data);
      var more := Items(wide, data[|Written(wide, x)|..]);
      ([x] + more.0, more.1)
  }

  lemma {:induction false} ItemsAssemble(wide: bool, data: Octets)
    ensures var (items, rest) := Items(wide, data);
            && AllWritable(wide, items) && Separated(wide, items, rest) && Ends(wide, rest)
            && Assembled(wide, items, rest) == data
    decreases |data|
  {
    hide FirstItem, Ends, Written, Writable;
    if !Ends(wide, data) {
      var (items, rest) := Items(wide, data);
      var next := |Written(wide, items[0])|;
      ItemsAssemble(wide, data[next..]);
      assert items[1..] == Items(wide, data[next..]).0;
      assert data == data[..next] + data[next..];
    }
  }

  // ----- What the profile field decides

  /** Profile 0xbede stands for one-octet headers, profiles 0x100 in the 13 low bits for two-octet ones, and
      with any other profile nothing is done. */
  lemma ProfileDecides(
    profile: nat, ids: seq<int>, key: nat -> Octet, items: seq<Item>, rest: Octets, at: nat)
    requires profile < 0x1_0000
    ensures profile == 0xbede && AllWritable(false, items) && Separated(false, items, rest) && Ends(false, rest) ==>
              Process(profile, ids, key, Assembled(false, items, rest), at)
              == Result(Assembled(false, Encrypted(false, ids, key, items, at), rest), EndStatus(false, rest))
    ensures profile % 0x2000 == 0x100
            && AllWritable(true, items) && Separated(true, items, rest) && Ends(true, rest) ==>
              Process(profile, ids, key, Assembled(true, items, rest), at)
              == Result(Assembled(true, Encrypted(true, ids, key, items, at), rest), EndStatus(true, rest))
    ensures profile != 0xbede && profile % 0x2000 != 0x100 ==>
              Process(profile, ids, key, rest, at) == Result(rest, ParseErr)
  {
    hide Transform, Separated, Ends, EndStatus, AllWritable, Encrypted, Assembled;
    if profile == 0xbede && AllWritable(false, items) && Separated(false, items, rest) && Ends(false, rest) {
      WalkIsEncrypted(false, ids, key, items, rest, at);
    }
    if profile % 0x2000 == 0x100 && AllWritable(true, items) && Separated(true, items, rest) && Ends(true, rest) {
      WalkIsEncrypted(true, ids, key, items, rest, at);
    }
  }
}
