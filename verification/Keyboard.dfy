/** kernel/keyboard.c: the circular key buffer and the decoding of scan codes (set 1). */
module Keyboard {
  import opened CStrings

  const BUFFER_SIZE := 500

  /** The keys in a circular buffer, oldest first. */
  function RingContents(buffer: seq<Byte>, front: nat, end: nat): (q: seq<Byte>)
    requires front < |buffer| && end < |buffer|
  {
    if front <= end then buffer[front..end] else buffer[front..] + buffer[..end]
  }

  lemma RingPop(buffer: seq<Byte>, front: nat, end: nat, next: nat)
    requires front < |buffer| && end < |buffer| && next == if front + 1 == |buffer| then 0 else front + 1
    ensures RingContents(buffer, front, end) != [] ==>
      RingContents(buffer, front, end) == [buffer[front]] + RingContents(buffer, next, end)
  {
    if front > end {
      assert buffer[front..] == [buffer[front]] + buffer[front + 1..];
    }
  }

  /** The buffer is full exactly if the next place is the front. */
  lemma RingSize(buffer: seq<Byte>, front: nat, end: nat, next: nat)
    requires front < |buffer| && end < |buffer| && next == if end + 1 == |buffer| then 0 else end + 1
    ensures |RingContents(buffer, front, end)| < |buffer|
    ensures |RingContents(buffer, front, end)| == |buffer| - 1 <==> next == front
    ensures RingContents(buffer, front, end) == [] <==> front == end
  {
  }

  lemma RingLength(buffer: seq<Byte>, front: nat, end: nat)
    requires front < |buffer| && end < |buffer|
    ensures |RingContents(buffer, front, end)| == if front <= end then end - front else |buffer| - front + end
  {
  }

  lemma RingPush(buffer: seq<Byte>, front: nat, end: nat, next: nat, ch: Byte)
    requires front < |buffer| && end < |buffer| && next == (if end + 1 == |buffer| then 0 else end + 1) && next != front
    ensures RingContents(buffer[end := ch], front, next) == RingContents(buffer, front, end) + [ch]
  {
  }

  /** The fields of s_keyboard_controller. */
  datatype Ring = Ring(buffer: seq<Byte>, front: nat, end: nat)

  predicate RingOk(r: Ring) { |r.buffer| == BUFFER_SIZE && r.front < BUFFER_SIZE && r.end < BUFFER_SIZE }

  function Keys(r: Ring): seq<Byte>
    requires RingOk(r)
  {
    RingContents(r.buffer, r.front, r.end)
  }

  function Push(r: Ring, ch: Byte): (t: Ring)
    requires RingOk(r)
    ensures RingOk(t)
  {
    if (r.end + 1) % BUFFER_SIZE == r.front then r
    else Ring(r.buffer[r.end := ch], r.front, (r.end + 1) % BUFFER_SIZE)
  }

  function Pop(r: Ring): (t: Ring)
    requires RingOk(r)
    ensures RingOk(t)
  {
    r.(front := (r.front + 1) % BUFFER_SIZE)
  }

  /** A key is appended, or dropped if 499 keys are waiting. */
  lemma PushAppends(r: Ring, ch: Byte)
    requires RingOk(r)
    ensures Keys(Push(r, ch)) == if |Keys(r)| == BUFFER_SIZE - 1 then Keys(r) else Keys(r) + [ch]
    ensures Push(r, ch).front == r.front && Keys(Push(r, ch)) != []
  {
    var next := if r.end + 1 == BUFFER_SIZE then 0 else r.end + 1;
    RingSize(r.buffer, r.front, r.end, next);
    if next != r.front { RingPush(r.buffer, r.front, r.end, next, ch); }
  }

  /** The oldest key is removed; on an empty buffer the pointers then claim 499 keys. */
  lemma PopRemoves(r: Ring)
    requires RingOk(r)
    ensures Keys(r) != [] ==> Keys(r) == [r.buffer[r.front]] + Keys(Pop(r))
    ensures Keys(r) == [] ==> |Keys(Pop(r))| == BUFFER_SIZE - 1
    ensures Keys(r) == [] <==> r.front == r.end
  {
    var next := if r.front + 1 == BUFFER_SIZE then 0 else r.front + 1;
    assert Pop(r) == Ring(r.buffer, next, r.end);
    RingPop(r.buffer, r.front, r.end, next);
    RingLength(r.buffer, r.front, r.end);
    RingLength(r.buffer, next, r.end);
  }

  // ----- Scan codes -----

  const SCAN_E0: Byte := 0xE0
  const LEFT_SHIFT: Byte := 0x2A
  const RIGHT_SHIFT: Byte := 0x36
  const LEFT_SHIFT_UP: Byte := 0xAA
  const RIGHT_SHIFT_UP: Byte := 0xB6
  const CAPS_LOCK_KEY: Byte := 0x3A

  /** The bits of s_flag. */
  datatype Flags = Flags(e0: bool, shift: bool, caps: bool)

  /** What the keys produce without shift, by scan code, in ASCII; 0 is no character. */
  function KeyMap(code: Byte): Byte {
    match code
    case 2 => 49 case 3 => 50 case 4 => 51 case 5 => 52 case 6 => 53 case 7 => 54 case 8 => 55 case 9 => 56
    case 10 => 57 case 11 => 48 case 12 => 45 case 13 => 61 case 14 => 8 case 16 => 113 case 17 => 119 case 18 => 101
    case 19 => 114 case 20 => 116 case 21 => 121 case 22 => 117 case 23 => 105 case 24 => 111 case 25 => 112
    case 26 => 91 case 27 => 93 case 28 => 10 case 30 => 97 case 31 => 115 case 32 => 100 case 33 => 102
    case 34 => 103 case 35 => 104 case 36 => 106 case 37 => 107 case 38 => 108 case 39 => 59 case 40 => 39
    case 41 => 96 case 43 => 92 case 44 => 122 case 45 => 120 case 46 => 99 case 47 => 118 case 48 => 98
    case 49 => 110 case 50 => 109 case 51 => 44 case 52 => 46 case 53 => 47 case 55 => 42 case 57 => 32
    case _ => 0
  }

  /** What they produce with shift. */
  function ShiftKeyMap(code: Byte): Byte {
    match code
    case 1 => 1 case 2 => 33 case 3 => 64 case 4 => 35 case 5 => 36 case 6 => 37 case 7 => 94 case 8 => 38
    case 9 => 42 case 10 => 40 case 11 => 41 case 12 => 95 case 13 => 43 case 14 => 8 case 15 => 9 case 16 => 81
    case 17 => 87 case 18 => 69 case 19 => 82 case 20 => 84 case 21 => 89 case 22 => 85 case 23 => 73 case 24 => 79
    case 25 => 80 case 26 => 123 case 27 => 125 case 28 => 10 case 30 => 65 case 31 => 83 case 32 => 68 case 33 => 70
    case 34 => 71 case 35 => 72 case 36 => 74 case 37 => 75 case 38 => 76 case 39 => 58 case 40 => 34 case 41 => 126
    case 43 => 124 case 44 => 90 case 45 => 88 case 46 => 67 case 47 => 86 case 48 => 66 case 49 => 78 case 50 => 77
    case 51 => 60 case 52 => 62 case 53 => 63 case 55 => 42 case 57 => 32
    case _ => 0
  }

  predicate IsLower(c: Byte) { 97 <= c <= 122 }
  predicate IsUpper(c: Byte) { 65 <= c <= 90 }

  function SwapCase(c: Byte): Byte { if IsLower(c) then c - 32 else if IsUpper(c) then c + 32 else c }

  predicate IsShift(code: Byte) { code == LEFT_SHIFT || code == RIGHT_SHIFT }
  predicate IsShiftUp(code: Byte) { code == LEFT_SHIFT_UP || code == RIGHT_SHIFT_UP }

  /** The flags after one scan code. */
  function NextFlags(f: Flags, code: Byte): Flags {
    if code == SCAN_E0 then f.(e0 := true)
    else if f.e0 then f.(e0 := false)
    else if code >= 0x80 then f.(shift := f.shift && !IsShiftUp(code))
    else f.(shift := f.shift || IsShift(code), caps := if code == CAPS_LOCK_KEY then !f.caps else f.caps)
  }

  /** The character of a scan code, 0 for none, when `f` are the flags after it. */
  function Character(f: Flags, code: Byte): Byte {
    var c := if f.shift then ShiftKeyMap(code) else KeyMap(code);
    if f.caps then SwapCase(c) else c
  }

  /** What one scan code gives, 0 for no character, when `f` are the flags before it. */
  function Decoded(f: Flags, code: Byte): Byte {
    if code == SCAN_E0 || f.e0 || code >= 0x80 then 0 else Character(NextFlags(f, code), code)
  }

  /** The flags after a sequence of scan codes from power-on. */
  function FlagsAfter(codes: seq<Byte>): Flags {
    if codes == [] then Flags(false, false, false) else NextFlags(FlagsAfter(codes[..|codes| - 1]), codes[|codes| - 1])
  }

  // ----- What the flags mean -----

  /** The codes that are neither an E0 prefix nor the code behind one. */
  function Plain(codes: seq<Byte>): seq<Byte> {
    if codes == [] then []
    else
      var n := |codes| - 1;
      Plain(codes[..n]) + if codes[n] == SCAN_E0 || (n > 0 && codes[n - 1] == SCAN_E0) then [] else [codes[n]]
  }

  /** The last code that presses or releases a shift key presses it. */
  predicate ShiftHeld(codes: seq<Byte>) {
    codes != [] &&
    var last := codes[|codes| - 1];
    IsShift(last) || (!IsShiftUp(last) && ShiftHeld(codes[..|codes| - 1]))
  }

  /** Caps lock was pressed an odd number of times. */
  predicate CapsOn(codes: seq<Byte>) {
    codes != [] && (CapsOn(codes[..|codes| - 1]) != (codes[|codes| - 1] == CAPS_LOCK_KEY))
  }

  lemma {:induction false} FlagsMeaning(codes: seq<Byte>)
    ensures FlagsAfter(codes) == Flags(codes != [] && codes[|codes| - 1] == SCAN_E0, ShiftHeld(Plain(codes)),
      CapsOn(Plain(codes)))
  {
    if codes != [] {
      var n := |codes| - 1;
      FlagsMeaning(codes[..n]);
      if codes[n] != SCAN_E0 && (n == 0 || codes[n - 1] != SCAN_E0) {
        assert Plain(codes)[..|Plain(codes)| - 1] == Plain(codes[..n]);
      } else {
        assert Plain(codes) == Plain(codes[..n]);
      }
    }
  }

  /** The two tables agree on which keys are letters, and differ in case there. */
  lemma LetterKeys(code: Byte)
    ensures IsLower(KeyMap(code)) <==> IsUpper(ShiftKeyMap(code))
    ensures IsLower(KeyMap(code)) ==> ShiftKeyMap(code) == KeyMap(code) - 32
    ensures !IsUpper(KeyMap(code)) && !IsLower(ShiftKeyMap(code))
  {
  }

  lemma LetterCharacter(f: Flags, code: Byte)
    requires IsLower(KeyMap(code)) && !f.e0
    ensures NextFlags(f, code) == f
    ensures Character(f, code) == if f.shift != f.caps then KeyMap(code) - 32 else KeyMap(code)
  {
    LetterKeys(code);
  }

  /** A letter key gives its capital exactly if one of shift and caps lock is on, but not both. */
  lemma LetterCase(codes: seq<Byte>, code: Byte, letter: Byte)
    requires letter == KeyMap(code) && IsLower(letter) && (codes == [] || codes[|codes| - 1] != SCAN_E0)
    ensures Character(FlagsAfter(codes + [code]), code) == if ShiftHeld(Plain(codes)) != CapsOn(Plain(codes))
      then letter - 32 else letter
  {
    FlagsMeaning(codes);
    LetterCharacter(FlagsAfter(codes), code);
    assert (codes + [code])[..|codes|] == codes;
  }

  // ----- What each key produces -----

  /** The codes of the two shift keys and of caps lock, and of their release, which is 0x80 higher. */
  lemma ModifierCodes(code: Byte)
    ensures IsShift(code) <==> code == 0x2A || code == 0x36
    ensures IsShiftUp(code) <==> code == 0xAA || code == 0xB6
    ensures CAPS_LOCK_KEY == 0x3A && SCAN_E0 == 0xE0
  {
  }

  /** Key `i` of a row of keys that starts at scan code `first`: without shift, and with it. */
  predicate KeyOfRow(first: nat, plain: string, shifted: string, i: nat)
    requires first + |plain| <= 256 && |plain| == |shifted|
  {
    i < |plain| ==> KeyMap(first + i) == plain[i] as int && ShiftKeyMap(first + i) == shifted[i] as int
  }

  /** The rows of the keyboard, from left to right. */
  lemma KeyRows(i: nat)
    ensures KeyOfRow(2, "1234567890-=", "!@#$%^&*()_+", i)
    ensures KeyOfRow(16, "qwertyuiop[]", "QWERTYUIOP{}", i)
    ensures KeyOfRow(30, "asdfghjkl;'`", "ASDFGHJKL:\"~", i)
    ensures KeyOfRow(43, "\\zxcvbnm,./", "|ZXCVBNM<>?", i)
    ensures KeyOfRow(28, "\n", "\n", i) && KeyOfRow(55, "*", "*", i) && KeyOfRow(57, " ", " ", i)
  {
    DigitRow(i);
    UpperRow(i);
    MiddleRow(i);
    LowerRow(i);
  }

  lemma DigitRow(i: nat)
    ensures KeyOfRow(2, "1234567890-=", "!@#$%^&*()_+", i)
  {
  }

  lemma UpperRow(i: nat)
    ensures KeyOfRow(16, "qwertyuiop[]", "QWERTYUIOP{}", i)
  {
  }

  lemma MiddleRow(i: nat)
    ensures KeyOfRow(30, "asdfghjkl;'`", "ASDFGHJKL:\"~", i)
  {
  }

  lemma LowerRow(i: nat)
    ensures KeyOfRow(43, "\\zxcvbnm,./", "|ZXCVBNM<>?", i)
  {
  }

  /** The keys outside of these rows: backspace, tab and escape with shift only, and nothing else. */
  lemma OtherKeys(code: Byte)
    ensures KeyMap(14) == ShiftKeyMap(14) == 8
    ensures KeyMap(15) == 0 && ShiftKeyMap(15) == 9 && KeyMap(1) == 0 && ShiftKeyMap(1) == 1
    ensures code == 0 || code == 29 || code == 42 || code == 54 || code == 56 || code > 57 ==>
      KeyMap(code) == ShiftKeyMap(code) == 0
  {
  }

  /** What a scan code produces behind any other ones: nothing for a prefix, a code behind one, and a release; for
      a letter its capital exactly if one of shift and caps lock is on; for every other key its upper character
      exactly with shift. */
  lemma KeyProduces(codes: seq<Byte>, code: Byte)
    ensures var c, behind := Decoded(FlagsAfter(codes), code), codes != [] && codes[|codes| - 1] == 0xE0;
      var shift, caps := ShiftHeld(Plain(codes)), CapsOn(Plain(codes));
      c == if code == 0xE0 || behind || code >= 0x80 then 0
           else if IsLower(KeyMap(code)) then KeyMap(code) - (if shift != caps then 32 else 0)
           else if shift then ShiftKeyMap(code) else KeyMap(code)
  {
    FlagsMeaning(codes);
    LetterKeys(code);
    if IsLower(KeyMap(code)) && !FlagsAfter(codes).e0 { LetterCharacter(FlagsAfter(codes), code); }
    OtherKeys(code);
  }

  // ----- The keyboard -----

  class KeyBuffer {
    const buffer: array<Byte>
    var front: nat
    var end: nat
    var flags: Flags

    ghost predicate Valid()
      reads this, buffer
    {
      RingOk(State())
    }

    function State(): Ring
      reads this, buffer
    {
      Ring(buffer[..], front, end)
    }

    /** The keys not read yet, oldest first. */
    ghost function Contents(): seq<Byte>
      requires Valid()
      reads this, buffer
    {
      Keys(State())
    }

    constructor ()
      ensures Valid() && fresh(buffer) && Contents() == [] && State() == Ring(seq(BUFFER_SIZE, _ => 0), 0, 0)
      ensures flags == FlagsAfter([])
    {
      buffer := new Byte[BUFFER_SIZE](_ => 0);
      front := 0;
      end := 0;
      flags := Flags(false, false, false);
      new;
      assert buffer[..] == seq(BUFFER_SIZE, _ => 0);
    }

    /** Append a key; a full buffer drops it. One place stays empty, so it holds 499 keys. */
    method WriteKeyBuffer(ch: Byte)
      requires Valid()
      modifies this`end, buffer
      ensures Valid() && State() == Push(old(State()), ch)
      ensures Contents() == if |old(Contents())| == BUFFER_SIZE - 1 then old(Contents()) else old(Contents()) + [ch]
    {
      PushAppends(State(), ch);
      if (end + 1) % BUFFER_SIZE == front {
        return;
      }
      buffer[end] := ch;
      end := (end + 1) % BUFFER_SIZE;
    }

    /** The part of ReadKeyBuffer behind the possible sleep: the key at the front as it was before the sleep. */
    method TakeKey(at: nat) returns (ch: Byte)
      requires Valid() && at < BUFFER_SIZE
      modifies this`front
      ensures Valid() && State() == Pop(old(State())) && ch == old(State()).buffer[at]
      ensures at == old(front) && old(Contents()) != [] ==>
        ch == old(Contents())[0] && Contents() == old(Contents())[1..]
    {
      PopRemoves(State());
      front := (front + 1) % BUFFER_SIZE;
      return buffer[at];
    }

    /** Decode one scan code; 0 if it gives no character. */
    method ReadCharacter(code: Byte) returns (c: Byte)
      modifies this`flags
      ensures flags == NextFlags(old(flags), code)
      ensures c == Decoded(old(flags), code)
    {
      if code == SCAN_E0 {
        flags := flags.(e0 := true);
        return 0;
      }
      if flags.e0 {
        flags := flags.(e0 := false);
        return 0;
      }
      if code >= 0x80 {
        if IsShiftUp(code) { flags := flags.(shift := false); }
        return 0;
      }
      if IsShift(code) { flags := flags.(shift := true); }
      if code == CAPS_LOCK_KEY { flags := flags.(caps := !flags.caps); }
      if flags.shift {
        c := ShiftKeyMap(code);
      } else {
        c := KeyMap(code);
      }
      if flags.caps {
        if IsLower(c) {
          c := c - 32;
        } else if IsUpper(c) {
          c := c + 32;
        }
      }
    }
  }
}
