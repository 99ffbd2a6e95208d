/**
 The string collector (src/common/mem_collector.c): copies of strings are kept in a buffer that
 grows by whole chunks and ends in null slots, and are all released together.

 A heap string is an object that knows whether it was released; releasing it twice is excluded
 by `Free`, so whatever verifies here never does.
 */
module MemCollectors {
  import opened Wrappers

  const CHUNK: nat := 100

  class CString {
    const text: string
    var freed: bool

    constructor (text: string)
      ensures this.text == text && !freed
    {
      this.text := text;
      freed := false;
    }

    method Free()
      requires !freed
      modifies this
      ensures freed
    {
      freed := true;
    }
  }

  /** `size` is the least positive multiple of the chunk that has room for `next` strings. */
  predicate LeastRoom(size: nat, next: nat) {
    && 0 < size && size % CHUNK == 0 && next <= size
    && forall m: nat :: 0 < m && m % CHUNK == 0 && next <= m ==> size <= m
  }

  /** Growing exactly when full keeps the room least. */
  lemma RoomGrows(size: nat, next: nat)
    requires LeastRoom(size, next)
    ensures LeastRoom(if next == size then size + CHUNK else size, next + 1)
  {
    var grown := if next == size then size + CHUNK else size;
    forall m: nat | 0 < m && m % CHUNK == 0 && next + 1 <= m
      ensures grown <= m
    {
      assert size <= m;
    }
  }

  lemma RoomInHundreds(size: nat, next: nat)
    requires LeastRoom(size, next)
    ensures size == if next == 0 then 100 else 100 * ((next + 99) / 100)
  {
    var least: nat := if next == 0 then 100 else 100 * ((next + 99) / 100);
    assert 0 < least && least % CHUNK == 0 && next <= least;
    assert size <= least;
    assert size == 100 * (size / 100);
  }

  /** What the buffer holds: the copies in order, then only null. */
  ghost predicate Holds(slots: seq<CString?>, copies: seq<CString>) {
    && |copies| <= |slots|
    && (forall i :: 0 <= i < |copies| ==> slots[i] == copies[i])
    && forall i :: |copies| <= i < |slots| ==> slots[i] == null
  }

  /** The number of slots that a scan passes before it stops at null or at the end. */
  function Scanned(slots: seq<CString?>): nat {
    if |slots| == 0 || slots[0] == null then 0 else 1 + Scanned(slots[1..])
  }

  /** A scan that stops at the first null passes the copies, all of them and nothing else. */
  lemma {:induction false} ScanMeetsCopies(slots: seq<CString?>, copies: seq<CString>)
    requires Holds(slots, copies)
    ensures Scanned(slots) == |copies| && slots[..Scanned(slots)] == copies
  {
    if copies != [] {
      forall i | 0 <= i < |copies| - 1 ensures slots[1..][i] == copies[1..][i] {
        assert slots[i + 1] == copies[i + 1];
      }
      ScanMeetsCopies(slots[1..], copies[1..]);
    }
  }

  class MemCollector {
    var strBuffer: array<CString?>
    var size: nat
    var next: nat
    ghost var copies: seq<CString>  // every copy handed out, in order

    ghost predicate Valid()
      reads this, strBuffer, copies
    {
      && size == strBuffer.Length && LeastRoom(size, next)
      && next == |copies| && Holds(strBuffer[..], copies)
      && Distinct(copies)
      && forall i :: 0 <= i < |copies| ==> !copies[i].freed
    }

    /** `mem_collector_init` */
    constructor ()
      ensures Valid() && fresh(strBuffer) && copies == []
    {
      strBuffer := new CString?[CHUNK];
      size, next, copies := CHUNK, 0, [];
      new;
      for i := 0 to size
        modifies strBuffer
        invariant forall k :: 0 <= k < i ==> strBuffer[k] == null
      {
        strBuffer[i] := null;
      }
    }

    /** `mem_collector_strdup` */
    method StrDup(str: string) returns (newStr: CString)
      requires Valid()
      modifies this, strBuffer
      ensures Valid() && (strBuffer == old(strBuffer) || fresh(strBuffer))
      ensures copies == old(copies) + [newStr]
      ensures fresh(newStr) && newStr.text == str
    {
      RoomGrows(size, next);
      if next == size {
        Grow();
      }
      newStr := new CString(str);
      strBuffer[next] := newStr;
      next := next + 1;
      copies := copies + [newStr];
    }

    /** One more chunk: `realloc` keeps the old slots, the new ones are made null. */
    method Grow()
      requires size == strBuffer.Length
      modifies this`strBuffer, this`size
      ensures fresh(strBuffer) && size == old(size) + CHUNK == strBuffer.Length
      ensures strBuffer[..] == old(strBuffer[..]) + seq(CHUNK, _ => null)
    {
      var oldSize := size;
      size := size + CHUNK;
      var grown := new CString?[size];
      forall i | 0 <= i < oldSize {
        grown[i] := strBuffer[i];
      }
      strBuffer := grown;
      for i := oldSize to size
        modifies grown
        invariant grown[..oldSize] == old(strBuffer[..])
        invariant forall k :: oldSize <= k < i ==> grown[k] == null
      {
        strBuffer[i] := null;
      }
    }

    /** `mem_collector_cleanup`: `Free` is called once on every copy, and on nothing else. */
    method Cleanup()
      requires Valid()
      modifies copies
      ensures forall c :: c in old(copies) ==> c.freed
    {
      ScanMeetsCopies(strBuffer[..], copies);
      var i := 0;
      while i < size
        invariant 0 <= i <= |copies|
        invariant forall j :: 0 <= j < |copies| ==> (copies[j].freed <==> j < i)
      {
        if strBuffer[i] != null {
          assert strBuffer[..][i] == copies[i];
          strBuffer[i].Free();
        } else {
          assert i == |copies|;
          break;
        }
        i := i + 1;
      }
    }
  }

  /** Any number of copies: they come back in order, and all of them are released. */
  method CollectAndRelease(strs: seq<string>)
    returns (copied: seq<string>, size: nat, ghost copies: seq<CString>)
    ensures copied == strs
    ensures size == if |strs| == 0 then 100 else 100 * ((|strs| + 99) / 100)
    ensures |copies| == |strs| && Distinct(copies)
    ensures forall i :: 0 <= i < |copies| ==> fresh(copies[i]) && copies[i].text == strs[i] && copies[i].freed
  {
    var mc := new MemCollector();
    copied := [];
    for i := 0 to |strs|
      invariant fresh(mc) && mc.Valid() && fresh(mc.strBuffer)
      invariant |mc.copies| == i && copied == strs[..i]
      invariant forall j :: 0 <= j < i ==> fresh(mc.copies[j]) && mc.copies[j].text == strs[j]
    {
      var newStr := mc.StrDup(strs[i]);
      copied := copied + [newStr.text];
    }
    size, copies := mc.size, mc.copies;
    RoomInHundreds(size, |strs|);
    mc.Cleanup();
  }
}
