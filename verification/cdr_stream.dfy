/** The stream the generated traversals drive, and the four traversals themselves. */
module CdrStreams {
  import opened TypeProps
  import opened Codec

  /** s with the bytes x put in from position at on. */
  function Splice(s: seq<bv8>, at: nat, x: seq<bv8>): (r: seq<bv8>)
    requires at + |x| <= |s|
    ensures |r| == |s|
  {
    s[..at] + x + s[at + |x|..]
  }

  lemma SpliceMore(s: seq<bv8>, at: nat, x: seq<bv8>, y: seq<bv8>)
    requires at + |x| + |y| <= |s|
    ensures Splice(Splice(s, at, x), at + |x|, y) == Splice(s, at, x + y)
  {}

  lemma SpliceTwice(s: seq<bv8>, at: nat, x: seq<bv8>, y: seq<bv8>)
    requires at + |x| <= |s| && |x| == |y|
    ensures Splice(Splice(s, at, x), at, y) == Splice(s, at, y)
  {}

  lemma CopyMore(s: seq<bv8>, at: nat, words: seq<Word>, i: nat, e: Endian)
    requires i < |words| && at + 4 * |words| <= |s|
    ensures Splice(Splice(s, at, WordBytes(words, i, e)), at + 4 * i, Bytes(words[i], e))
         == Splice(s, at, WordBytes(words, i + 1, e))
  {
    hide Splice, Bytes;
    SpliceMore(s, at, WordBytes(words, i, e), Bytes(words[i], e));
  }

  lemma CopyNothing(s: seq<bv8>, at: nat, words: seq<Word>, e: Endian)
    requires at <= |s|
    ensures Splice(s, at, WordBytes(words, 0, e)) == s
  {
    SpliceNothing(s, at);
  }

  /** Splicing inside what was spliced. */
  lemma SpliceWithin(s: seq<bv8>, at: nat, x: seq<bv8>, k: nat, y: seq<bv8>)
    requires at + |x| <= |s| && k + |y| <= |x|
    ensures Splice(Splice(s, at, x), at + k, y) == Splice(s, at, Splice(x, k, y))
  {}

  lemma SpliceHolds(s: seq<bv8>, at: nat, x: seq<bv8>)
    requires at + |x| <= |s|
    ensures Holds(Splice(s, at, x), at, x)
  {}

  lemma SpliceKeeps(s: seq<bv8>, at: nat, x: seq<bv8>)
    requires at + |x| <= |s|
    ensures Splice(s, at, x)[..at] == s[..at] && Splice(s, at, x)[at + |x|..] == s[at + |x|..]
  {}

  lemma SpliceSame(s: seq<bv8>, at: nat, x: seq<bv8>)
    requires Holds(s, at, x)
    ensures Splice(s, at, x) == s
  {
    assert s[..at] + s[at..at + |x|] + s[at + |x|..] == s;
  }

  lemma SpliceNothing(s: seq<bv8>, at: nat)
    requires at <= |s|
    ensures Splice(s, at, []) == s
  {}

  /** The first n words as bytes, those before i already in order e and the rest still in order f. */
  function Mixed(words: seq<Word>, n: nat, i: nat, e: Endian, f: Endian): (b: seq<bv8>)
    requires n <= |words|
    ensures |b| == 4 * n
  {
    if n == 0 then []
    else Mixed(words, n - 1, i, e, f) + Bytes(words[n - 1], if n - 1 < i then e else f)
  }

  lemma {:induction false} MixedEnds(words: seq<Word>, n: nat, i: nat, e: Endian, f: Endian)
    requires n <= |words|
    ensures i == 0 ==> Mixed(words, n, i, e, f) == WordBytes(words, n, f)
    ensures i >= n ==> Mixed(words, n, i, e, f) == WordBytes(words, n, e)
  {
    if n > 0 {
      MixedEnds(words, n - 1, i, e, f);
    }
  }

  /** Word i is still in the old order. */
  lemma {:induction false} MixedBorder(words: seq<Word>, n: nat, i: nat, e: Endian, f: Endian)
    requires i < n <= |words|
    ensures Holds(Mixed(words, n, i, e, f), 4 * i, Bytes(words[i], f))
  {
    var before, last := Mixed(words, n - 1, i, e, f), Bytes(words[n - 1], f);
    if i < n - 1 {
      MixedBorder(words, n - 1, i, e, f);
      HoldsLeft(before, last, 4 * i, Bytes(words[i], f));
    } else {
      HoldsRight(before, last);
    }
  }

  lemma SpliceLeft(x: seq<bv8>, y: seq<bv8>, k: nat, z: seq<bv8>)
    requires k + |z| <= |x|
    ensures Splice(x + y, k, z) == Splice(x, k, z) + y
  {}

  lemma SpliceRight(x: seq<bv8>, y: seq<bv8>, z: seq<bv8>)
    requires |y| == |z|
    ensures Splice(x + y, |x|, z) == x + z
  {}

  lemma {:induction false} MixedBefore(words: seq<Word>, n: nat, i: nat, e: Endian, f: Endian)
    requires n <= i && n <= |words|
    ensures Mixed(words, n, i + 1, e, f) == Mixed(words, n, i, e, f)
  {
    if n > 0 {
      MixedBefore(words, n - 1, i, e, f);
    }
  }

  /** Changing the order of word i moves the border by one. */
  lemma {:induction false} MixedStep(words: seq<Word>, n: nat, i: nat, e: Endian, f: Endian)
    requires i < n <= |words|
    ensures Splice(Mixed(words, n, i, e, f), 4 * i, Bytes(words[i], e)) == Mixed(words, n, i + 1, e, f)
  {
    hide Splice, Bytes;
    var before := Mixed(words, n - 1, i, e, f);
    if i < n - 1 {
      MixedStep(words, n - 1, i, e, f);
      SpliceLeft(before, Bytes(words[n - 1], f), 4 * i, Bytes(words[i], e));
    } else {
      MixedBefore(words, n - 1, i, e, f);
      SpliceRight(before, Bytes(words[i], f), Bytes(words[i], e));
    }
  }

  lemma BorderHeld(s: seq<bv8>, start: nat, words: seq<Word>, i: nat, e: Endian, f: Endian)
    requires i < |words| && start + 4 * |words| <= |s|
    ensures Holds(Splice(s, start, Mixed(words, |words|, i, e, f)), start + 4 * i, Bytes(words[i], f))
  {
    var block := Mixed(words, |words|, i, e, f);
    SpliceHolds(s, start, block);
    MixedBorder(words, |words|, i, e, f);
    HoldsWithin(Splice(s, start, block), start, block, 4 * i, Bytes(words[i], f));
  }

  lemma BorderMoves(s: seq<bv8>, start: nat, words: seq<Word>, i: nat, e: Endian, f: Endian)
    requires i < |words| && start + 4 * |words| <= |s|
    ensures Splice(Splice(s, start, Mixed(words, |words|, i, e, f)), start + 4 * i, Bytes(words[i], e))
         == Splice(s, start, Mixed(words, |words|, i + 1, e, f))
  {
    hide Splice, Mixed;
    SpliceWithin(s, start, Mixed(words, |words|, i, e, f), 4 * i, Bytes(words[i], e));
    MixedStep(words, |words|, i, e, f);
  }

  lemma {:induction false} SizeGrows(position: nat, members: seq<Prop>, i: nat, n: nat)
    requires i <= n <= |members|
    ensures Size(position, members, i) <= Size(position, members, n)
  {
    if i < n {
      SizeGrows(position, members, i, n - 1);
    }
  }

  /** The known ids among the first n members: what a traversal reports as streamed. */
  function Known(members: seq<Prop>, n: nat): set<nat>
    requires n <= |members|
  {
    if n == 0 then {}
    else Known(members, n - 1) + if KnownId(members[n - 1].id) then {members[n - 1].id} else {}
  }

  /** finish_struct: no member that must be understood was missed. */
  predicate Finished(members: seq<Prop>, memberIds: set<nat>) {
    forall k :: 0 <= k < |members| && members[k].mustUnderstand ==> members[k].id in memberIds
  }

  lemma {:induction false} KnownExactly(members: seq<Prop>, n: nat)
    requires n <= |members|
    ensures forall k :: 0 <= k < n ==> (members[k].id in Known(members, n) <==> KnownId(members[k].id))
    ensures forall id :: id in Known(members, n) ==> KnownId(id)
  {
    if n > 0 {
      KnownExactly(members, n - 1);
    }
  }

  lemma FinishedWhenComplete(members: seq<Prop>)
    ensures Finished(members, Known(members, |members|)) <==> Complete(members)
  {
    KnownExactly(members, |members|);
  }

  /** A sample being filled in place. */
  class JoyCell {
    var priority: bv8
    var axes: seq<Word>
    var buttons: seq<bv8>

    ghost predicate Valid()
      reads this
    {
      |axes| == AXES && |buttons| == BUTTONS
    }

    function Value(): JoyData
      requires Valid()
      reads this
    {
      JoyRecord(priority, axes, buttons)
    }

    constructor ()
      ensures Valid()
    {
      priority, axes, buttons := 0, [ZERO, ZERO, ZERO, ZERO, ZERO, ZERO], [0, 0, 0, 0, 0, 0, 0, 0, 0, 0, 0, 0];
    }
  }

  class CdrStream {
    const native: Endian
    const order: Endian
    const buffer: array<bv8>
    var position: nat

    constructor (native: Endian, order: Endian, buffer: array<bv8>, start: nat)
      ensures this.native == native && this.order == order && this.buffer == buffer && position == start
    {
      this.native, this.order, this.buffer, position := native, order, buffer, start;
    }

    predicate Available(n: nat)
      reads this
    {
      position + n <= buffer.Length
    }

    method StoreWord(at: nat, u: Word, e: Endian)
      requires at + 4 <= buffer.Length
      modifies buffer
      ensures buffer[..] == Splice(old(buffer[..]), at, Bytes(u, e))
    {
      var b := Bytes(u, e);
      buffer[at] := b[0];
      buffer[at + 1] := b[1];
      buffer[at + 2] := b[2];
      buffer[at + 3] := b[3];
    }

    method PutBytes(at: nat, bytes: seq<bv8>)
      requires at + |bytes| <= buffer.Length
      modifies buffer
      ensures buffer[..] == Splice(old(buffer[..]), at, bytes)
    {
      for i := 0 to |bytes|
        invariant forall k :: 0 <= k < buffer.Length ==>
                    buffer[k] == if at <= k < at + i then bytes[k - at] else old(buffer[k])
      {
        buffer[at + i] := bytes[i];
      }
    }

    /** Move the cursor to the next multiple of a width, zeroing what it skips. */
    method AlignForWrite(width: nat) returns (ok: bool)
      requires width == 1 || width == 4
      modifies this`position, buffer
      ensures ok <==> old(position) + Pad(old(position), width) <= buffer.Length
      ensures ok ==> position == old(position) + Pad(old(position), width)
      ensures ok ==> buffer[..] == Splice(old(buffer[..]), old(position), Zeros(Pad(old(position), width)))
    {
      var pad := Pad(position, width);
      if !Available(pad) {
        return false;
      }
      PutBytes(position, Zeros(pad));
      position := position + pad;
      return true;
    }

    method AlignCursor(width: nat)
      requires width == 1 || width == 4
      modifies this`position
      ensures position == old(position) + Pad(old(position), width)
    {
      position := position + Pad(position, width);
    }

    /** The primitive write for bytes, which need neither padding nor swapping. */
    method WriteBytes(bytes: seq<bv8>) returns (ok: bool)
      modifies this`position, buffer
      ensures ok <==> old(position) + |bytes| <= buffer.Length
      ensures ok ==> position == old(position) + |bytes|
      ensures ok ==> buffer[..] == Splice(old(buffer[..]), old(position), bytes)
    {
      if !Available(|bytes|) {
        return false;
      }
      PutBytes(position, bytes);
      position := position + |bytes|;
      return true;
    }

    /** Copy the words as the host stores them. */
    method CopyWords(at: nat, words: seq<Word>)
      requires at + 4 * |words| <= buffer.Length
      modifies buffer
      ensures buffer[..] == Splice(old(buffer[..]), at, WordBytes(words, |words|, native))
    {
      hide Splice, WordBytes;
      ghost var s := buffer[..];
      CopyNothing(s, at, words, native);
      for i := 0 to |words|
        invariant buffer[..] == Splice(s, at, WordBytes(words, i, native))
      {
        CopyMore(s, at, words, i, native);
        StoreWord(at + 4 * i, words[i], native);
      }
    }

    /** Swap one stored word: load it, swap it, store it back. */
    method SwapStored(at: nat, ghost u: Word)
      requires native != order && Holds(buffer[..], at, Bytes(u, native))
      modifies buffer
      ensures buffer[..] == Splice(old(buffer[..]), at, Bytes(u, order))
    {
      var w := WordOf(buffer[at..at + 4], native);
      assert buffer[at..at + 4] == buffer[..][at..at + 4];
      WordOfBytes(u, native);
      SwapChangesOrder(u, native, order);
      StoreWord(at, ByteSwap(w), native);
    }

    /** One step of swapping a block: word i changes order, the rest stay. */
    method SwapNext(ghost s: seq<bv8>, ghost start: nat, at: nat, ghost words: seq<Word>, ghost i: nat)
      requires native != order && i < |words| && start + 4 * |words| <= |s| && at == start + 4 * i
      requires buffer[..] == Splice(s, start, Mixed(words, |words|, i, order, native))
      modifies buffer
      ensures buffer[..] == Splice(s, start, Mixed(words, |words|, i + 1, order, native))
    {
      hide Splice, Mixed, Holds;
      BorderHeld(s, start, words, i, order, native);
      BorderMoves(s, start, words, i, order, native);
      SwapStored(at, words[i]);
    }

    /** Swap stored words one by one. */
    method SwapWords(at: nat, ghost words: seq<Word>, n: nat)
      requires n == |words| && native != order
      requires Holds(buffer[..], at, WordBytes(words, n, native))
      modifies buffer
      ensures buffer[..] == Splice(old(buffer[..]), at, WordBytes(words, n, order))
    {
      hide Splice, Mixed, WordBytes;
      ghost var s := buffer[..];
      SpliceSame(s, at, WordBytes(words, n, native));
      MixedEnds(words, n, 0, order, native);
      for i := 0 to n
        invariant buffer[..] == Splice(s, at, Mixed(words, n, i, order, native))
      {
        SwapNext(s, at, at + 4 * i, words, i);
      }
      MixedEnds(words, n, n, order, native);
    }

    /** Store words in the stream's order. */
    method PutWords(at: nat, words: seq<Word>)
      requires at + 4 * |words| <= buffer.Length
      modifies buffer
      ensures buffer[..] == Splice(old(buffer[..]), at, WordBytes(words, |words|, order))
    {
      ghost var s := buffer[..];
      CopyWords(at, words);
      if native != order {
        SpliceHolds(s, at, WordBytes(words, |words|, native));
        SwapWords(at, words, |words|);
        SpliceTwice(s, at, WordBytes(words, |words|, native), WordBytes(words, |words|, order));
      }
    }

    /** The primitive write for floats. */
    method WriteWords(words: seq<Word>) returns (ok: bool)
      modifies this`position, buffer
      ensures ok <==> old(position) + Pad(old(position), 4) + 4 * |words| <= buffer.Length
      ensures ok ==> position == old(position) + Pad(old(position), 4) + 4 * |words|
      ensures ok ==> buffer[..] == Splice(old(buffer[..]), old(position),
                                          Zeros(Pad(old(position), 4)) + WordBytes(words, |words|, order))
    {
      hide Splice, WordBytes;
      ghost var s := buffer[..];
      ok := AlignForWrite(4);
      if !ok {
        return;
      }
      if !Available(4 * |words|) {
        return false;
      }
      SpliceMore(s, old(position), Zeros(Pad(old(position), 4)), WordBytes(words, |words|, order));
      PutWords(position, words);
      position := position + 4 * |words|;
      return true;
    }

    method ReadBytes(n: nat) returns (ok: bool, bytes: seq<bv8>)
      modifies this`position
      ensures ok <==> old(position) + n <= buffer.Length
      ensures ok ==> position == old(position) + n && bytes == buffer[old(position)..old(position) + n]
    {
      if !Available(n) {
        return false, [];
      }
      bytes := buffer[position..position + n];
      position := position + n;
      ok := true;
    }

    /** Swap words that were read as the host stores them. */
    method SwapRead(words: seq<Word>, ghost buf: seq<bv8>, ghost at: nat) returns (swapped: seq<Word>)
      requires native != order && at + 4 * |words| <= |buf| && words == WordsAt(buf, at, |words|, native)
      ensures swapped == WordsAt(buf, at, |words|, order)
    {
      swapped := words;
      for i := 0 to |words|
        invariant |swapped| == |words|
        invariant forall j :: 0 <= j < i ==> swapped[j] == WordsAt(buf, at, |words|, order)[j]
        invariant forall j :: i <= j < |words| ==> swapped[j] == words[j]
      {
        SwapWordAt(buf, at, |words|, i, native, order);
        swapped := swapped[i := ByteSwap(swapped[i])];
      }
    }

    /** The primitive read for floats: take the words as the host reads them, then swap each. */
    method ReadWords(n: nat) returns (ok: bool, words: seq<Word>)
      modifies this`position
      ensures ok <==> old(position) + Pad(old(position), 4) + 4 * n <= buffer.Length
      ensures ok ==> position == old(position) + Pad(old(position), 4) + 4 * n
      ensures ok ==> words == WordsAt(buffer[..], old(position) + Pad(old(position), 4), n, order)
    {
      AlignCursor(4);
      if !Available(4 * n) {
        return false, [];
      }
      words := WordsAt(buffer[..], position, n, native);
      if native != order {
        words := SwapRead(words, buffer[..], position);
      }
      position := position + 4 * n;
      ok := true;
    }

    method WriteMember(v: JoyData, id: nat) returns (ok: bool)
      requires position <= buffer.Length
      modifies this`position, buffer
      ensures ok <==> old(position) + MemberSize(old(position), id) <= buffer.Length
      ensures ok ==> position == old(position) + MemberSize(old(position), id)
      ensures ok ==> buffer[..] == Splice(old(buffer[..]), old(position), MemberBytes(old(position), id, v, order))
    {
      match id {
        case 0 =>
          ok := WriteBytes([v.priority]);
        case 1 =>
          ok := WriteWords(v.axes);
        case 2 =>
          ok := WriteBytes(v.buttons);
        case _ =>
          ok := true;
      }
    }

    method ReadMember(cell: JoyCell, id: nat) returns (ok: bool)
      requires position <= buffer.Length && cell.Valid()
      modifies this`position, cell
      ensures cell.Valid()
      ensures ok <==> old(position) + MemberSize(old(position), id) <= buffer.Length
      ensures ok ==> position == old(position) + MemberSize(old(position), id)
      ensures ok ==> cell.Value() == DecodeMember(buffer[..], old(position), id, old(cell.Value()), order)
    {
      match id {
        case 0 =>
          var bytes;
          ok, bytes := ReadBytes(1);
          if ok {
            cell.priority := bytes[0];
          }
        case 1 =>
          var words;
          ok, words := ReadWords(AXES);
          if ok {
            cell.axes := words;
          }
        case 2 =>
          var bytes;
          ok, bytes := ReadBytes(BUTTONS);
          if ok {
            cell.buttons := bytes;
          }
        case _ =>
          ok := true;
      }
    }

    method MoveMember(id: nat)
      modifies this`position
      ensures position == old(position) + MemberSize(old(position), id)
    {
      match id {
        case 0 =>
          position := position + 1;
        case 1 =>
          AlignCursor(4);
          position := position + 4 * AXES;
        case 2 =>
          position := position + BUTTONS;
        case _ =>
      }
    }

    /** One turn of write's loop, after the bytes written since start. */
    method WriteNext(v: JoyData, id: nat, ghost start: nat, ghost s: seq<bv8>, ghost written: seq<bv8>)
      returns (ok: bool, ghost longer: seq<bv8>)
      requires position == start + |written| <= buffer.Length == |s| && buffer[..] == Splice(s, start, written)
      modifies this`position, buffer
      ensures longer == written + MemberBytes(start + |written|, id, v, order)
      ensures ok <==> start + |longer| <= buffer.Length
      ensures ok ==> position == start + |longer| && buffer[..] == Splice(s, start, longer)
    {
      ghost var here := MemberBytes(position, id, v, order);
      longer := written + here;
      ok := WriteMember(v, id);
      if ok {
        SpliceMore(s, start, written, here);
      }
    }

    /** The loop of write; memberIds are the members streamed. */
    method WriteMembers(v: JoyData, members: seq<Prop>) returns (ok: bool, memberIds: set<nat>)
      requires position <= buffer.Length
      modifies this`position, buffer
      ensures ok <==> old(position) + Size(old(position), members, |members|) <= buffer.Length
      ensures ok ==> position == old(position) + Size(old(position), members, |members|)
      ensures ok ==> buffer[..] == Splice(old(buffer[..]), old(position),
                                          Encode(old(position), members, |members|, v, order))
      ensures ok ==> memberIds == Known(members, |members|)
    {
      hide Splice, MemberBytes, MemberSize;
      ghost var start, s := position, buffer[..];
      ghost var written: seq<bv8> := [];
      memberIds := {};
      SpliceNothing(s, start);
      for i := 0 to |members|
        invariant written == Encode(start, members, i, v, order)
        invariant position == start + |written| <= buffer.Length
        invariant buffer[..] == Splice(s, start, written)
        invariant memberIds == Known(members, i)
      {
        SizeGrows(start, members, i + 1, |members|);
        EncodeMore(start, members, i, v, order);
        ok, written := WriteNext(v, members[i].id, start, s, written);
        if !ok {
          return;
        }
        if KnownId(members[i].id) {
          memberIds := memberIds + {members[i].id};
        }
      }
      ok := true;
    }

    /** write: every member of the list in turn, then the completeness check. Succeeds exactly when
        the bytes fit; what it writes depends on the stream's byte order and not on the host's. */
    method Write(v: JoyData, members: seq<Prop>) returns (ok: bool)
      requires position <= buffer.Length
      modifies this`position, buffer
      ensures ok <==>
              && old(position) + Size(old(position), members, |members|) <= buffer.Length
              && forall k :: 0 <= k < |members| && members[k].mustUnderstand ==> members[k].id < 3
      ensures ok ==> position == old(position) + Size(old(position), members, |members|)
      ensures ok ==> buffer[..] == Splice(old(buffer[..]), old(position),
                                          Encode(old(position), members, |members|, v, order))
    {
      var memberIds;
      ok, memberIds := WriteMembers(v, members);
      if ok {
        FinishedWhenComplete(members);
        ok := Finished(members, memberIds);
      }
    }

    /** The loop of read. */
    method ReadMembers(cell: JoyCell, members: seq<Prop>) returns (ok: bool, memberIds: set<nat>)
      requires position <= buffer.Length && cell.Valid()
      modifies this`position, cell
      ensures cell.Valid()
      ensures ok <==> old(position) + Size(old(position), members, |members|) <= buffer.Length
      ensures ok ==> position == old(position) + Size(old(position), members, |members|)
      ensures ok ==> cell.Value() == Decode(buffer[..], old(position), members, |members|, old(cell.Value()), order)
      ensures ok ==> memberIds == Known(members, |members|)
    {
      hide DecodeMember, MemberSize;
      ghost var start, w := position, cell.Value();
      memberIds := {};
      for i := 0 to |members|
        invariant position == start + Size(start, members, i) <= buffer.Length
        invariant cell.Valid() && cell.Value() == Decode(buffer[..], start, members, i, w, order)
        invariant memberIds == Known(members, i)
      {
        SizeGrows(start, members, i + 1, |members|);
        ok := ReadMember(cell, members[i].id);
        if !ok {
          return;
        }
        if KnownId(members[i].id) {
          memberIds := memberIds + {members[i].id};
        }
      }
      ok := true;
    }

    /** read: the same traversal, filling the fields of an existing value in place. */
    method Read(cell: JoyCell, members: seq<Prop>) returns (ok: bool)
      requires position <= buffer.Length && cell.Valid()
      modifies this`position, cell
      ensures cell.Valid()
      ensures ok <==>
              && old(position) + Size(old(position), members, |members|) <= buffer.Length
              && forall k :: 0 <= k < |members| && members[k].mustUnderstand ==> members[k].id < 3
      ensures ok ==> position == old(position) + Size(old(position), members, |members|)
      ensures ok ==> cell.Value() == Decode(buffer[..], old(position), members, |members|, old(cell.Value()), order)
    {
      var memberIds;
      ok, memberIds := ReadMembers(cell, members);
      if ok {
        FinishedWhenComplete(members);
        ok := Finished(members, memberIds);
      }
    }

    /** move: only the cursor, by exactly what write would produce from the same position. */
    method Move(members: seq<Prop>) returns (ok: bool)
      modifies this`position
      ensures ok <==> forall k :: 0 <= k < |members| && members[k].mustUnderstand ==> members[k].id < 3
      ensures position == old(position) + Size(old(position), members, |members|)
    {
      ghost var start := position;
      var memberIds: set<nat> := {};
      for i := 0 to |members|
        invariant position == start + Size(start, members, i)
        invariant memberIds == Known(members, i)
      {
        MoveMember(members[i].id);
        if KnownId(members[i].id) {
          memberIds := memberIds + {members[i].id};
        }
      }
      FinishedWhenComplete(members);
      return Finished(members, memberIds);
    }

    /** max: every primitive's max is its move, so the same cursor. */
    method Max(members: seq<Prop>) returns (ok: bool)
      modifies this`position
      ensures ok <==> forall k :: 0 <= k < |members| && members[k].mustUnderstand ==> members[k].id < 3
      ensures position == old(position) + Size(old(position), members, |members|)
    {
      ok := Move(members);
    }

    /** The public write: fetch the type's property list, start over, stream the whole value. */
    method WriteSample(table: PropertyTable, v: JoyData) returns (ok: bool)
      requires table.Ready()
      modifies this`position, buffer, table
      ensures table.Ready()
      ensures ok <==> 40 <= buffer.Length
      ensures ok ==> position == 40
      ensures ok ==> Holds(buffer[..], 0, Encode(0, Members(TABLE), |Members(TABLE)|, v, order))
      ensures ok ==> buffer[40..] == old(buffer[40..])
    {
      hide Splice, Encode, Size, Members, Holds, Carry;
      var props := table.GetTypeProps();
      position := 0;
      TableIsComplete(0);
      ok := Write(v, Members(props));
      if ok {
        SpliceHolds(old(buffer[..]), 0, Encode(0, Members(TABLE), |Members(TABLE)|, v, order));
        SpliceKeeps(old(buffer[..]), 0, Encode(0, Members(TABLE), |Members(TABLE)|, v, order));
        assert buffer[40..] == buffer[..][40..] && old(buffer[40..]) == old(buffer[..])[40..];
      }
    }

    /** The public read, into an existing cell. */
    method ReadSample(table: PropertyTable, cell: JoyCell) returns (ok: bool)
      requires table.Ready() && cell.Valid()
      modifies this`position, cell, table
      ensures table.Ready() && cell.Valid()
      ensures ok <==> 40 <= buffer.Length
      ensures ok ==> position == 40
      ensures ok ==> forall v: JoyData ::
                Holds(buffer[..], 0, Encode(0, Members(TABLE), |Members(TABLE)|, v, order)) ==> cell.Value() == v
    {
      var props := table.GetTypeProps();
      position := 0;
      ghost var w := cell.Value();
      TableIsComplete(0);
      ok := Read(cell, Members(props));
      if ok {
        forall v: JoyData | Holds(buffer[..], 0, Encode(0, Members(TABLE), |Members(TABLE)|, v, order))
          ensures cell.Value() == v
        {
          RoundTrip(buffer[..], 0, Members(TABLE), |Members(TABLE)|, v, w, order,
                    Encode(0, Members(TABLE), |Members(TABLE)|, v, order));
        }
      }
    }
  }

  /** One sample from one host to another: whatever their byte orders and the stream's, the reader
      ends with the writer's value, provided the buffer holds 40 bytes. */
  method Transfer(v: JoyData, writerHost: Endian, readerHost: Endian, order: Endian, size: nat)
    returns (ok: bool, received: JoyData)
    ensures ok <==> 40 <= size
    ensures ok ==> received == v
  {
    var buffer := new bv8[size](_ => 0);
    var table := new PropertyTable();
    var writer := new CdrStream(writerHost, order, buffer, 0);
    var reader := new CdrStream(readerHost, order, buffer, 0);
    var cell := new JoyCell();
    received := cell.Value();
    ok := writer.WriteSample(table, v);
    if ok {
      ok := reader.ReadSample(table, cell);
      received := cell.Value();
    }
  }
}
