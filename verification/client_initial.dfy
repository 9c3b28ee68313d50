/**
 * The client's name-entry screen: the edit loop on the name buffer, the rule that decides to
 * connect, and the user data that carries the name to the server (an 8-byte little-endian byte
 * length, then the name's UTF-8 bytes, then zeros). The buffer is a string of characters whose
 * length, as Rust's `String::len` reports it, is its UTF-8 byte count.
 */
module ClientInitial {
  import opened Primitives
  import Wrappers
  import LittleEndian
  import Utf8
  import Server

  /** The character a DELETE key press produces. */
  const Delete: char := '\U{7F}'

  /** The character an ENTER key press produces. */
  const Enter: char := '\r'

  /** Bevy's `Interaction` of the connect button. */
  datatype Interaction = Clicked | Hovered | None

  /** The byte length of a name, as `String::len` reports it. */
  function ByteLen(text: string): nat
  {
    |Utf8.Encode(text)|
  }

  /**
   * The effect of one character event on the buffer: DELETE pops the last character (if any);
   * any other character is pushed only while the buffer holds fewer than
   * `NETCODE_USER_DATA_BYTES` bytes.
   */
  function EditChar(text: string, c: char): (r: string)
    ensures c == Delete && text != [] ==> r + [text[|text| - 1]] == text
    ensures c == Delete && text == [] ==> r == []
    ensures c != Delete && ByteLen(text) < NetcodeUserDataBytes ==> r == text + [c]
    ensures c != Delete && ByteLen(text) >= NetcodeUserDataBytes ==> r == text
  {
    if c == Delete then
      if text == [] then text else text[..|text| - 1]
    else if ByteLen(text) < NetcodeUserDataBytes then text + [c]
    else text
  }

  /** The buffer after a frame's character events, applied in order. */
  function EditChars(text: string, events: seq<char>): string
    decreases |events|
  {
    if events == [] then text else EditChars(EditChar(text, events[0]), events[1..])
  }

  /** `username_input`: applies every character event of the frame to the name buffer. */
  method UsernameInput(text: string, events: seq<char>) returns (edited: string)
    ensures edited == EditChars(text, events)
  {
    edited := text;
    for i := 0 to |events|
      invariant EditChars(edited, events[i..]) == EditChars(text, events)
    {
      assert events[i..][1..] == events[i + 1..];
      if events[i] == Delete {
        if edited != [] {
          edited := edited[..|edited| - 1];
        }
        continue;
      }
      if ByteLen(edited) < NetcodeUserDataBytes {
        edited := edited + [events[i]];
      }
    }
  }

  /**
   * The buffer stays below `NETCODE_USER_DATA_BYTES` + 4 bytes: a push happens only below the
   * limit and adds at most one four-byte character.
   */
  lemma {:induction false} NameBufferBound(text: string, events: seq<char>)
    requires ByteLen(text) < NetcodeUserDataBytes + 4
    ensures ByteLen(EditChars(text, events)) < NetcodeUserDataBytes + 4
    decreases |events|
  {
    if events != [] {
      var next := EditChar(text, events[0]);
      if events[0] == Delete {
        if text != [] {
          Utf8.EncodeAppend(next, text[|text| - 1]);
        }
      } else if ByteLen(text) < NetcodeUserDataBytes {
        Utf8.EncodeAppend(text, events[0]);
      }
      NameBufferBound(next, events[1..]);
    }
  }

  /** Every character is ASCII, so it takes one UTF-8 byte. */
  predicate IsAscii(s: string)
  {
    forall i :: 0 <= i < |s| ==> s[i] as int < 0x80
  }

  /** An ASCII string takes one byte per character. */
  lemma {:induction false} AsciiLen(s: string)
    requires IsAscii(s)
    ensures ByteLen(s) == |s|
    decreases |s|
  {
    if s != [] {
      var init := s[..|s| - 1];
      assert s == init + [s[|s| - 1]];
      Utf8.EncodeAppend(init, s[|s| - 1]);
      AsciiLen(init);
    }
  }

  /**
   * Typing ASCII characters other than DELETE onto an ASCII buffer appends every one of them,
   * one byte each, as long as the buffer does not pass `NETCODE_USER_DATA_BYTES` bytes.
   */
  lemma {:induction false} TypingAsciiFillsBuffer(text: string, typed: string)
    requires IsAscii(text) && IsAscii(typed) && Delete !in typed
    requires |text| + |typed| <= NetcodeUserDataBytes
    ensures EditChars(text, typed) == text + typed
    ensures ByteLen(text + typed) == |text| + |typed|
    decreases |typed|
  {
    AsciiLen(text + typed);
    if typed != [] {
      AsciiLen(text);
      assert typed[0] in typed;
      assert EditChar(text, typed[0]) == text + [typed[0]];
      assert text + typed == (text + [typed[0]]) + typed[1..];
      TypingAsciiFillsBuffer(text + [typed[0]], typed[1..]);
    }
  }

  /**
   * The buffer admits names the encoder refuses: typing `NETCODE_USER_DATA_BYTES` - 7 letters
   * into an empty buffer gives a name longer than the `NETCODE_USER_DATA_BYTES` - 8 bytes that
   * `new_renet_client` accepts.
   */
  lemma TypedNameCanBeTooLong()
    ensures var typed := EditChars([], seq(NetcodeUserDataBytes - 7, _ => 'a'));
      ByteLen(typed) == NetcodeUserDataBytes - 7 > NetcodeUserDataBytes - 8
  {
    var typed := seq(NetcodeUserDataBytes - 7, _ => 'a');
    assert Delete !in typed;
    TypingAsciiFillsBuffer([], typed);
    assert [] + typed == typed;
  }

  /**
   * `connect_to_server`'s trigger: each character event overwrites the flag with "is ENTER",
   * then a clicked button sets it.
   */
  method ShouldConnect(events: seq<char>, interactions: seq<Interaction>) returns (connect: bool)
    ensures connect <==> (events != [] && events[|events| - 1] == Enter) || Clicked in interactions
  {
    connect := false;
    for i := 0 to |events|
      invariant connect <==> i > 0 && events[i - 1] == Enter
    {
      connect := events[i] == Enter;
    }
    for i := 0 to |interactions|
      invariant connect <==> (events != [] && events[|events| - 1] == Enter) || Clicked in interactions[..i]
    {
      if interactions[i] == Clicked {
        connect := true;
      }
    }
    assert interactions[..|interactions|] == interactions;
  }

  /**
   * The user data laid out for `bytes`: the length as 8 little-endian bytes, the bytes
   * themselves, then zeros up to `NETCODE_USER_DATA_BYTES`.
   */
  predicate IsUserDataFor(userData: seq<byte>, bytes: seq<byte>)
  {
    && |userData| == NetcodeUserDataBytes
    && |bytes| <= NetcodeUserDataBytes - 8
    && userData[..8] == LittleEndian.ToLeBytes(|bytes|, 8)
    && userData[8..8 + |bytes|] == bytes
    && forall i :: 8 + |bytes| <= i < NetcodeUserDataBytes ==> userData[i] == 0
  }

  /**
   * The user-data encoding in `new_renet_client`: refuses (the source panics) a name of more
   * than `NETCODE_USER_DATA_BYTES` - 8 bytes, and otherwise lays the name out in a zeroed array.
   */
  method EncodeUserData(username: string) returns (userData: Wrappers.Option<seq<byte>>)
    ensures userData.None? <==> ByteLen(username) > NetcodeUserDataBytes - 8
    ensures userData.Some? ==> IsUserDataFor(userData.value, Utf8.Encode(username))
  {
    var bytes := Utf8.Encode(username);
    var buffer := new byte[NetcodeUserDataBytes](_ => 0);
    if |bytes| > NetcodeUserDataBytes - 8 {
      return Wrappers.None;
    }
    var lengthBytes := LittleEndian.ToLeBytes(|bytes|, 8);
    forall i | 0 <= i < 8 {
      buffer[i] := lengthBytes[i];
    }
    forall i | 8 <= i < |bytes| + 8 {
      buffer[i] := bytes[i - 8];
    }
    userData := Wrappers.Some(buffer[..]);
  }

  /**
   * Round trip: the server's `from_user_data` reads back exactly the bytes the client laid out,
   * so a name of at most `NETCODE_USER_DATA_BYTES` - 8 bytes reaches the server unchanged.
   */
  lemma {:induction false} UserDataRoundTrip(userData: seq<byte>, bytes: seq<byte>)
    requires IsUserDataFor(userData, bytes)
    ensures Server.FromUserData(userData) == Server.Player(bytes)
  {
    LittleEndian.Pow256Of8();
    LittleEndian.LeRoundTrip(|bytes|, 8);
  }

  /** The outcome of `connect_to_server` for one frame. */
  datatype Transition =
    | Stay
    | ToConnected(userData: seq<byte>)
    | ToError
    | Panicked

  /**
   * `connect_to_server`: when the trigger fires, a client is created and the app moves to
   * `Connected`, or to `Error` when creating it fails. `setupOk` is whether the server address,
   * the socket and the clock, obtained before the name is encoded, were available; `clientOk`
   * is whether `RenetClient::new` then succeeded. An over-long name panics in between.
   */
  method ConnectToServer(events: seq<char>, interactions: seq<Interaction>, username: string,
                         setupOk: bool, clientOk: bool) returns (t: Transition)
    ensures var fires := (events != [] && events[|events| - 1] == Enter) || Clicked in interactions;
      && (!fires ==> t == Stay)
      && (fires && !setupOk ==> t == ToError)
      && (fires && setupOk && ByteLen(username) > NetcodeUserDataBytes - 8 ==> t == Panicked)
      && (fires && setupOk && ByteLen(username) <= NetcodeUserDataBytes - 8 ==>
            if clientOk then t.ToConnected? && IsUserDataFor(t.userData, Utf8.Encode(username))
            else t == ToError)
  {
    var connect := ShouldConnect(events, interactions);
    if !connect {
      return Stay;
    }
    if !setupOk {
      return ToError;
    }
    var userData := EncodeUserData(username);
    if userData.None? {
      return Panicked;
    }
    if !clientOk {
      return ToError;
    }
    return ToConnected(userData.value);
  }
}
