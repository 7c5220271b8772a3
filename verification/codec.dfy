/** JoyData_ on the wire: write, read, move and max over one property list, in plain CDR. Floats are
    their 32-bit patterns; a stream has its own byte order, which need not be the host's. */
module Codec {
  import opened TypeProps

  datatype Endian = Little | Big

  /** A 32-bit pattern by its bytes, least significant first. */
  datatype Word = Word(b0: bv8, b1: bv8, b2: bv8, b3: bv8)

  const ZERO := Word(0, 0, 0, 0)

  datatype JoyRecord = JoyRecord(priority: bv8, axes: seq<Word>, buttons: seq<bv8>)

  const AXES := 6
  const BUTTONS := 12

  type JoyData = r: JoyRecord | |r.axes| == AXES && |r.buttons| == BUTTONS
    witness JoyRecord(0, [ZERO, ZERO, ZERO, ZERO, ZERO, ZERO], [0, 0, 0, 0, 0, 0, 0, 0, 0, 0, 0, 0])

  // Words and bytes.

  /** The four bytes of a word in memory, under a byte order. */
  function Bytes(w: Word, e: Endian): (b: seq<bv8>)
    ensures |b| == 4
  {
    if e.Little? then [w.b0, w.b1, w.b2, w.b3] else [w.b3, w.b2, w.b1, w.b0]
  }

  function WordOf(b: seq<bv8>, e: Endian): Word
    requires |b| == 4
  {
    if e.Little? then Word(b[0], b[1], b[2], b[3]) else Word(b[3], b[2], b[1], b[0])
  }

  /** byte_swap for four-byte types: swap the halves, then the bytes within each half. */
  function ByteSwap(w: Word): Word {
    var h := Word(w.b2, w.b3, w.b0, w.b1);
    Word(h.b1, h.b0, h.b3, h.b2)
  }

  lemma WordOfBytes(w: Word, e: Endian)
    ensures WordOf(Bytes(w, e), e) == w
  {}

  /** Swapping a word on a host of one order gives its bytes in the other. */
  lemma SwapChangesOrder(w: Word, e: Endian, f: Endian)
    requires e != f
    ensures Bytes(ByteSwap(w), e) == Bytes(w, f)
  {}

  /** The number a word stands for. */
  function Value(w: Word): nat {
    w.b0 as nat + 0x100 * w.b1 as nat + 0x1_0000 * w.b2 as nat + 0x100_0000 * w.b3 as nat
  }

  /** The number that the first n bytes spell, most significant first. */
  function Number(b: seq<bv8>, n: nat): nat
    requires n <= |b|
  {
    if n == 0 then 0 else 0x100 * Number(b, n - 1) + b[n - 1] as nat
  }

  lemma NumberOfFour(b: seq<bv8>)
    requires |b| == 4
    ensures Number(b, 4) == Value(Word(b[3], b[2], b[1], b[0]))
  {
    assert Number(b, 1) == b[0] as nat;
    assert Number(b, 2) == 0x100 * Number(b, 1) + b[1] as nat;
    assert Number(b, 3) == 0x100 * Number(b, 2) + b[2] as nat;
  }

  /** Byte orders mean what they say: read from the big end, the bytes spell the word's number. */
  lemma BytesSpellValue(w: Word)
    ensures Number(Bytes(w, Big), 4) == Value(w)
    ensures var b := Bytes(w, Little); Number([b[3], b[2], b[1], b[0]], 4) == Value(w)
  {
    hide Value, Number;
    NumberOfFour([w.b3, w.b2, w.b1, w.b0]);
  }

  lemma SwapWord(b: seq<bv8>, e: Endian, f: Endian)
    requires |b| == 4 && e != f
    ensures ByteSwap(WordOf(b, e)) == WordOf(b, f)
  {}

  // Encoding and decoding, as functions on byte sequences.

  function Zeros(n: nat): (z: seq<bv8>)
    ensures |z| == n && forall k :: 0 <= k < n ==> z[k] == 0
  {
    seq(n, _ => 0 as bv8)
  }

  lemma SliceOfSlice(s: seq<bv8>, at: nat, n: nat, i: nat, j: nat)
    requires i <= j <= n && at + n <= |s|
    ensures s[at..at + n][i..j] == s[at + i..at + j]
  {
    var inner, outer := s[at..at + n][i..j], s[at + i..at + j];
    forall k | 0 <= k < |inner|
      ensures inner[k] == outer[k]
    {
      assert s[at..at + n][i + k] == s[at + (i + k)];
    }
  }

  /** The bytes x lie in the buffer from position at on. */
  ghost predicate Holds(buf: seq<bv8>, at: nat, x: seq<bv8>) {
    at + |x| <= |buf| && buf[at..at + |x|] == x
  }

  lemma HoldsParts(buf: seq<bv8>, at: nat, x: seq<bv8>, y: seq<bv8>)
    requires Holds(buf, at, x + y)
    ensures Holds(buf, at, x) && Holds(buf, at + |x|, y)
  {
    SliceOfSlice(buf, at, |x + y|, 0, |x|);
    SliceOfSlice(buf, at, |x + y|, |x|, |x + y|);
  }

  /** Padding that aligns a position to a width of 1 or 4. */
  function Pad(position: nat, width: nat): (n: nat)
    ensures width == 4 ==> n < 4 && (position + n) % 4 == 0
    ensures width != 4 ==> n == 0
  {
    if width == 4 && position % 4 != 0 then 4 - position % 4 else 0
  }

  /** The first n words as bytes. */
  function WordBytes(words: seq<Word>, n: nat, e: Endian): (b: seq<bv8>)
    requires n <= |words|
    ensures |b| == 4 * n
  {
    if n == 0 then [] else WordBytes(words, n - 1, e) + Bytes(words[n - 1], e)
  }

  predicate KnownId(id: nat) { id < 3 }

  /** How far one member moves the cursor. */
  function MemberSize(position: nat, id: nat): nat {
    match id
    case 0 => 1
    case 1 => Pad(position, 4) + 4 * AXES
    case 2 => BUTTONS
    case _ => 0
  }

  /** How far the first n members move it. */
  function Size(position: nat, members: seq<Prop>, n: nat): nat
    requires n <= |members|
  {
    if n == 0 then 0
    else
      var before := Size(position, members, n - 1);
      before + MemberSize(position + before, members[n - 1].id)
  }

  function MemberBytes(position: nat, id: nat, v: JoyData, e: Endian): (b: seq<bv8>)
    ensures |b| == MemberSize(position, id)
  {
    match id
    case 0 => [v.priority]
    case 1 => Zeros(Pad(position, 4)) + WordBytes(v.axes, |v.axes|, e)
    case 2 => v.buttons
    case _ => []
  }

  function Encode(position: nat, members: seq<Prop>, n: nat, v: JoyData, e: Endian): (b: seq<bv8>)
    requires n <= |members|
    ensures |b| == Size(position, members, n)
  {
    if n == 0 then []
    else
      var before := Encode(position, members, n - 1, v, e);
      before + MemberBytes(position + |before|, members[n - 1].id, v, e)
  }

  function WordsAt(buf: seq<bv8>, at: nat, n: nat, e: Endian): (words: seq<Word>)
    requires at + 4 * n <= |buf|
    ensures |words| == n
  {
    seq(n, i requires 0 <= i < n => WordOf(buf[at + 4 * i..at + 4 * i + 4], e))
  }

  lemma SwapWordAt(buf: seq<bv8>, at: nat, n: nat, i: nat, e: Endian, f: Endian)
    requires at + 4 * n <= |buf| && i < n && e != f
    ensures ByteSwap(WordsAt(buf, at, n, e)[i]) == WordsAt(buf, at, n, f)[i]
  {
    SwapWord(buf[at + 4 * i..at + 4 * i + 4], e, f);
  }

  function DecodeMember(buf: seq<bv8>, position: nat, id: nat, w: JoyData, e: Endian): JoyData
    requires position + MemberSize(position, id) <= |buf|
  {
    match id
    case 0 => w.(priority := buf[position])
    case 1 => w.(axes := WordsAt(buf, position + Pad(position, 4), AXES, e))
    case 2 => w.(buttons := buf[position..position + BUTTONS])
    case _ => w
  }

  /** Reading fills the fields of an existing value, member by member. */
  function Decode(buf: seq<bv8>, position: nat, members: seq<Prop>, n: nat, w: JoyData, e: Endian): JoyData
    requires n <= |members| && position + Size(position, members, n) <= |buf|
  {
    if n == 0 then w
    else
      DecodeMember(buf, position + Size(position, members, n - 1), members[n - 1].id,
                   Decode(buf, position, members, n - 1, w, e), e)
  }

  /** w with one member taken from v. */
  function WithMember(id: nat, v: JoyData, w: JoyData): JoyData {
    match id
    case 0 => w.(priority := v.priority)
    case 1 => w.(axes := v.axes)
    case 2 => w.(buttons := v.buttons)
    case _ => w
  }

  /** w with the first n members taken from v. */
  function Carry(members: seq<Prop>, n: nat, v: JoyData, w: JoyData): JoyData
    requires n <= |members|
  {
    if n == 0 then w else WithMember(members[n - 1].id, v, Carry(members, n - 1, v, w))
  }

  ghost predicate Lists(members: seq<Prop>, n: nat, id: nat)
    requires n <= |members|
  {
    exists k :: 0 <= k < n && members[k].id == id
  }

  /** Members that a reader must understand are ones it knows. */
  predicate Complete(members: seq<Prop>) {
    forall k :: 0 <= k < |members| && members[k].mustUnderstand ==> KnownId(members[k].id)
  }

  lemma HoldsLeft(x: seq<bv8>, y: seq<bv8>, at: nat, p: seq<bv8>)
    requires Holds(x, at, p)
    ensures Holds(x + y, at, p)
  {
    assert (x + y)[at..at + |p|] == x[at..at + |p|];
  }

  lemma HoldsRight(x: seq<bv8>, y: seq<bv8>)
    ensures Holds(x + y, |x|, y)
  {}

  lemma HoldsWithin(buf: seq<bv8>, at: nat, x: seq<bv8>, i: nat, p: seq<bv8>)
    requires Holds(buf, at, x) && Holds(x, i, p)
    ensures Holds(buf, at + i, p)
  {
    SliceOfSlice(buf, at, |x|, i, i + |p|);
  }

  lemma {:induction false} WordBytesAt(words: seq<Word>, n: nat, e: Endian, i: nat)
    requires i < n <= |words|
    ensures Holds(WordBytes(words, n, e), 4 * i, Bytes(words[i], e))
  {
    if i < n - 1 {
      WordBytesAt(words, n - 1, e, i);
      HoldsLeft(WordBytes(words, n - 1, e), Bytes(words[n - 1], e), 4 * i, Bytes(words[i], e));
    } else {
      HoldsRight(WordBytes(words, n - 1, e), Bytes(words[n - 1], e));
    }
  }

  lemma HeldWord(buf: seq<bv8>, at: nat, u: Word, e: Endian)
    requires Holds(buf, at, Bytes(u, e))
    ensures WordOf(buf[at..at + 4], e) == u
  {
    WordOfBytes(u, e);
  }

  lemma WordRoundTrip(buf: seq<bv8>, at: nat, words: seq<Word>, e: Endian, code: seq<bv8>, i: nat)
    requires code == WordBytes(words, |words|, e) && Holds(buf, at, code) && i < |words|
    ensures at + 4 * |words| <= |buf| && WordsAt(buf, at, |words|, e)[i] == words[i]
  {
    hide WordBytes, Bytes, WordOf;
    var here := Bytes(words[i], e);
    WordBytesAt(words, |words|, e, i);
    HoldsWithin(buf, at, code, 4 * i, here);
    HeldWord(buf, at + 4 * i, words[i], e);
  }

  lemma WordsRoundTrip(buf: seq<bv8>, at: nat, words: seq<Word>, e: Endian, code: seq<bv8>)
    requires code == WordBytes(words, |words|, e) && Holds(buf, at, code)
    ensures WordsAt(buf, at, |words|, e) == words
  {
    assert at + 4 * |words| <= |buf|;
    hide WordsAt, Holds, WordBytes;
    var read := WordsAt(buf, at, |words|, e);
    forall i | 0 <= i < |words|
      ensures read[i] == words[i]
    {
      WordRoundTrip(buf, at, words, e, code, i);
    }
  }

  lemma MemberRoundTrip(buf: seq<bv8>, position: nat, id: nat, v: JoyData, w: JoyData, e: Endian, code: seq<bv8>)
    requires code == MemberBytes(position, id, v, e) && Holds(buf, position, code)
    ensures DecodeMember(buf, position, id, w, e) == WithMember(id, v, w)
  {
    if id == 0 {
      assert buf[position] == buf[position..position + 1][0];
    } else if id == 1 {
      var words := WordBytes(v.axes, |v.axes|, e);
      HoldsParts(buf, position, Zeros(Pad(position, 4)), words);
      WordsRoundTrip(buf, position + Pad(position, 4), v.axes, e, words);
    }
  }

  lemma ListsMore(members: seq<Prop>, n: nat, id: nat)
    requires n < |members|
    ensures Lists(members, n + 1, id) <==> Lists(members, n, id) || members[n].id == id
  {
    if Lists(members, n, id) {
      var k :| 0 <= k < n && members[k].id == id;
      assert members[k].id == id;
    }
  }

  /** Exactly the listed members are carried over. */
  lemma {:induction false} CarryExactly(members: seq<Prop>, n: nat, v: JoyData, w: JoyData)
    requires n <= |members|
    ensures var r := Carry(members, n, v, w);
            && r.priority == (if Lists(members, n, 0) then v.priority else w.priority)
            && r.axes == (if Lists(members, n, 1) then v.axes else w.axes)
            && r.buttons == (if Lists(members, n, 2) then v.buttons else w.buttons)
  {
    if n > 0 {
      CarryExactly(members, n - 1, v, w);
      ListsMore(members, n - 1, 0);
      ListsMore(members, n - 1, 1);
      ListsMore(members, n - 1, 2);
    }
  }

  lemma EncodeParts(buf: seq<bv8>, position: nat, members: seq<Prop>, n: nat, v: JoyData, e: Endian, code: seq<bv8>)
    returns (before: seq<bv8>, here: seq<bv8>)
    requires 0 < n <= |members| && code == Encode(position, members, n, v, e) && Holds(buf, position, code)
    ensures before == Encode(position, members, n - 1, v, e)
    ensures here == MemberBytes(position + |before|, members[n - 1].id, v, e)
    ensures Holds(buf, position, before) && Holds(buf, position + |before|, here)
  {
    before := Encode(position, members, n - 1, v, e);
    here := MemberBytes(position + |before|, members[n - 1].id, v, e);
    HoldsParts(buf, position, before, here);
  }

  /** Cut off the last member, which decodes to its own value. */
  lemma LastMember(buf: seq<bv8>, position: nat, members: seq<Prop>, n: nat,
                   v: JoyData, w: JoyData, e: Endian, code: seq<bv8>)
    returns (before: seq<bv8>)
    requires 0 < n <= |members| && code == Encode(position, members, n, v, e) && Holds(buf, position, code)
    ensures before == Encode(position, members, n - 1, v, e) && Holds(buf, position, before)
    ensures position + |before| + MemberSize(position + |before|, members[n - 1].id) <= |buf|
    ensures DecodeMember(buf, position + |before|, members[n - 1].id, w, e) == WithMember(members[n - 1].id, v, w)
  {
    var here;
    before, here := EncodeParts(buf, position, members, n, v, e, code);
    MemberRoundTrip(buf, position + |before|, members[n - 1].id, v, w, e, here);
  }

  lemma EncodeMore(position: nat, members: seq<Prop>, n: nat, v: JoyData, e: Endian)
    requires n < |members|
    ensures var before := Encode(position, members, n, v, e);
            Encode(position, members, n + 1, v, e) == before + MemberBytes(position + |before|, members[n].id, v, e)
  {}

  /** Reading what was written, at any position, in any byte order, through any property list, into
      any value: the listed members are carried over. */
  lemma {:induction false} RoundTrip(
    buf: seq<bv8>, position: nat, members: seq<Prop>, n: nat, v: JoyData, w: JoyData, e: Endian, code: seq<bv8>)
    requires n <= |members| && code == Encode(position, members, n, v, e) && Holds(buf, position, code)
    ensures Decode(buf, position, members, n, w, e) == Carry(members, n, v, w)
  {
    hide Holds, MemberBytes, MemberSize, DecodeMember, WithMember;
    if n > 0 {
      var before := LastMember(buf, position, members, n, v, Carry(members, n - 1, v, w), e, code);
      RoundTrip(buf, position, members, n - 1, v, w, e, before);
    }
  }

  /** A property list gives a full round trip for every value iff it lists all three members. */
  lemma RoundTripComplete(members: seq<Prop>)
    ensures (forall v: JoyData, w: JoyData :: Carry(members, |members|, v, w) == v) <==>
            forall id: nat :: KnownId(id) ==> Lists(members, |members|, id)
  {
    var one := Word(1, 0, 0, 0);
    var v: JoyData := JoyRecord(1, [one, one, one, one, one, one], [1, 1, 1, 1, 1, 1, 1, 1, 1, 1, 1, 1]);
    var w: JoyData := JoyRecord(0, [ZERO, ZERO, ZERO, ZERO, ZERO, ZERO], [0, 0, 0, 0, 0, 0, 0, 0, 0, 0, 0, 0]);
    assert v.axes[0] != w.axes[0] && v.buttons[0] != w.buttons[0];
    if forall v: JoyData, w: JoyData :: Carry(members, |members|, v, w) == v {
      assert Carry(members, |members|, v, w) == v;
      CarryExactly(members, |members|, v, w);
    } else {
      var v', w' :| Carry(members, |members|, v', w') != v';
      CarryExactly(members, |members|, v', w');
      assert KnownId(0) && KnownId(1) && KnownId(2);
    }
  }

  lemma MembersAppend(props: seq<Prop>, p: Prop)
    ensures Members(props + [p]) == Members(props) + if p.depth == 1 then [p] else []
  {
    assert (props + [p])[..|props|] == props;
  }

  lemma TableMembers()
    ensures Members(TABLE) == [TABLE[1], TABLE[2], TABLE[3]]
  {
    MembersAppend([], TABLE[0]);
    MembersAppend([TABLE[0]], TABLE[1]);
    MembersAppend([TABLE[0], TABLE[1]], TABLE[2]);
    MembersAppend([TABLE[0], TABLE[1], TABLE[2]], TABLE[3]);
    assert TABLE == [TABLE[0], TABLE[1], TABLE[2]] + [TABLE[3]];
    assert [TABLE[0], TABLE[1], TABLE[2]] == [TABLE[0], TABLE[1]] + [TABLE[2]];
    assert [TABLE[0], TABLE[1]] == [TABLE[0]] + [TABLE[1]];
    assert [TABLE[0]] == [] + [TABLE[0]];
  }

  /** The type's own list round-trips every value, and takes 37 bytes and the padding before the axes. */
  lemma TableIsComplete(position: nat)
    ensures Complete(Members(TABLE)) && |Members(TABLE)| == 3
    ensures forall v: JoyData, w: JoyData :: Carry(Members(TABLE), 3, v, w) == v
    ensures Size(position, Members(TABLE), 3) == 37 + (3 - position % 4)
  {
    var members := Members(TABLE);
    TableMembers();
    assert members[0].id == 0 && members[1].id == 1 && members[2].id == 2;
    forall v: JoyData, w: JoyData
      ensures Carry(members, 3, v, w) == v
    {
      CarryExactly(members, 3, v, w);
    }
    assert Size(position, members, 1) == 1;
    assert Size(position, members, 2) == 1 + Pad(position + 1, 4) + 24;
  }

  /** The layout on the wire: the priority, padding up to the next multiple of four, the six axes in
      the stream's byte order without a length, then the twelve buttons; no header anywhere. */
  lemma WireLayout(position: nat, v: JoyData, e: Endian)
    ensures |Members(TABLE)| == 3
    ensures Encode(position, Members(TABLE), 3, v, e)
         == [v.priority] + Zeros(3 - position % 4) + WordBytes(v.axes, |v.axes|, e) + v.buttons
    ensures forall k :: 1 <= k < 4 - position % 4 ==> Encode(position, Members(TABLE), 3, v, e)[k] == 0
  {
    hide WordBytes, Members;
    var members := Members(TABLE);
    TableMembers();
    assert members[0].id == 0 && members[1].id == 1 && members[2].id == 2;
    EncodeMore(position, members, 0, v, e);
    EncodeMore(position, members, 1, v, e);
    EncodeMore(position, members, 2, v, e);
    var head, pad, words := [v.priority], Zeros(3 - position % 4), WordBytes(v.axes, |v.axes|, e);
    assert Encode(position, members, 1, v, e) == head;
    assert MemberBytes(position + 1, 1, v, e) == pad + words;
    assert head + (pad + words) == head + pad + words;
  }
}
