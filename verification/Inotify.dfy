/** The byte layout of `struct inotify_event` as read from the kernel: four
    little-endian 32-bit words (wd, mask, cookie, len) and a NUL-padded name. */
module Inotify {
  import opened Basics

  const EVENT_SIZE := 16
  const EVENT_BUF_LEN := 1024 * (EVENT_SIZE + 16)
  const WORD := 0x1_0000_0000
  const IN_MODIFY := 0x2
  const IN_ISDIR := 0x4000_0000

  datatype FileEvent = FileEvent(wd: nat, mask: nat, cookie: nat, name: string, padding: nat) {

    function Len(): nat {
      |name| + padding
    }

    /** What the kernel delivers: an event without a name has length 0, any
        other name is followed by at least one NUL. */
    predicate WellFormed() {
      && wd < WORD && mask < WORD && cookie < WORD && Len() < WORD
      && '\0' !in name
      && (name != "" ==> padding > 0)
      && (name == "" ==> padding == 0)
    }

    /** A modification of something that is not a directory, with a name. */
    predicate Relevant() {
      Len() != 0 && HasBit(mask, IN_MODIFY) && !HasBit(mask, IN_ISDIR)
    }

    function Encode(): (s: seq<char>)
      requires WellFormed()
      ensures |s| == EVENT_SIZE + Len()
    {
      Word(wd) + Word(mask) + Word(cookie) + Word(Len()) + name + Repeat(padding, '\0')
    }
  }

  /** `mask & bit` for a single bit. */
  predicate HasBit(mask: nat, bit: nat)
    requires bit > 0
  {
    mask / bit % 2 == 1
  }

  function Word(n: nat): (w: seq<char>)
    requires n < WORD
    ensures |w| == 4
  {
    [(n % 256) as char, (n / 256 % 256) as char, (n / 0x1_0000 % 256) as char, (n / 0x100_0000) as char]
  }

  function EncodeAll(events: seq<FileEvent>): seq<char>
    requires forall e <- events :: e.WellFormed()
  {
    if events == [] then []
    else events[0].Encode() + EncodeAll(events[1..])
  }

  // ----- Reading -----

  /** A 32-bit word, least significant byte first. */
  function WordAt(buffer: seq<char>, i: nat): nat
    requires i + 4 <= |buffer|
  {
    buffer[i] as int + 256 * buffer[i + 1] as int
    + 0x1_0000 * buffer[i + 2] as int + 0x100_0000 * buffer[i + 3] as int
  }

  /** std::string(const char*): everything up to the first NUL. */
  function CString(buffer: seq<char>, i: nat): string
    requires i <= |buffer|
    decreases |buffer| - i
  {
    if i == |buffer| || buffer[i] == '\0' then "" else [buffer[i]] + CString(buffer, i + 1)
  }

  lemma WordRoundTrip(n: nat)
    requires n < WORD
    ensures WordAt(Word(n), 0) == n
  {
    assert n / 0x1_0000 == n / 256 / 256;
    assert n / 0x100_0000 == n / 256 / 256 / 256;
  }

  lemma {:induction false} CStringStops(buffer: seq<char>, i: nat, name: string)
    requires i + |name| < |buffer|
    requires buffer[i..i + |name|] == name && '\0' !in name && buffer[i + |name|] == '\0'
    ensures CString(buffer, i) == name
    decreases name
  {
    if name != "" {
      assert buffer[i] == name[0] && buffer[i + 1..i + 1 + |name[1..]|] == name[1..];
      CStringStops(buffer, i + 1, name[1..]);
      assert name == [name[0]] + name[1..];
    }
  }

  /** Wherever an event starts in the buffer, its header and name read back. */
  lemma ReadsBack(before: seq<char>, e: FileEvent, after: seq<char>)
    requires e.WellFormed()
    ensures var buffer := before + e.Encode() + after;
            var i := |before|;
            && i + 16 + e.Len() <= |buffer|
            && WordAt(buffer, i + 4) == e.mask
            && WordAt(buffer, i + 12) == e.Len() == |e.name| + e.padding
            && (e.Len() > 0 ==> CString(buffer, i + 16) == e.name)
  {
    var buffer := before + e.Encode() + after;
    var i := |before|;
    WordRoundTrip(e.mask);
    WordRoundTrip(e.Len());
    assert buffer[i + 4..i + 8] == Word(e.mask);
    assert buffer[i + 12..i + 16] == Word(e.Len());
    WordSlice(buffer, i + 4, Word(e.mask));
    WordSlice(buffer, i + 12, Word(e.Len()));
    if e.Len() > 0 {
      assert buffer[i + 16..i + 16 + |e.name|] == e.name;
      assert buffer[i + 16 + |e.name|] == Repeat(e.padding, '\0')[0];
      CStringStops(buffer, i + 16, e.name);
    }
  }

  /** The mask in the bytes themselves, least significant first. */
  lemma MaskBytes(e: FileEvent)
    requires e.WellFormed()
    ensures var s := e.Encode();
            s[4] as int + 256 * (s[5] as int + 256 * (s[6] as int + 256 * s[7] as int)) == e.mask
  {
    var s := e.Encode();
    ReadsBack([], e, []);
    assert [] + s + [] == s;
    assert WordAt(s, 4) == e.mask;
  }

  lemma WordSlice(buffer: seq<char>, i: nat, w: seq<char>)
    requires i + 4 <= |buffer| && |w| == 4 && buffer[i..i + 4] == w
    ensures WordAt(buffer, i) == WordAt(w, 0)
  {
    assert buffer[i] == w[0] && buffer[i + 1] == w[1] && buffer[i + 2] == w[2] && buffer[i + 3] == w[3];
  }

  lemma EncodesNothing(events: seq<FileEvent>)
    requires forall e <- events :: e.WellFormed()
    requires EncodeAll(events) == []
    ensures events == []
  {}
}
