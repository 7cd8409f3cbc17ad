/** Characters to X11 keysyms, and the login sequence `username` Tab `password` Return. */
module Keysyms {
  import opened Basics

  type Keysym = u32

  const NO_SYMBOL: Keysym := 0
  const KEYSYM_TAB: Keysym := 0xff09
  const KEYSYM_RETURN: Keysym := 0xff0d
  const UNICODE_BASE: int := 0x0100_0000

  predicate Latin1Printable(cp: int) {
    0x20 <= cp <= 0x7e || 0xa0 <= cp <= 0xff
  }

  function CharToKeysym(c: char): (k: Keysym)
    ensures k != NO_SYMBOL && k != KEYSYM_TAB && k != KEYSYM_RETURN
  {
    var cp := c as int;
    if Latin1Printable(cp) then cp else UNICODE_BASE + cp
  }

  /** Printable Latin-1 characters are their own keysyms; any other is its code point in the Unicode block. */
  lemma KeysymRanges(c: char)
    ensures CharToKeysym(c)
            == if ' ' <= c <= '~' || '\U{a0}' <= c <= '\U{ff}' then c as int else 0x0100_0000 + c as int
  {
  }

  /** The character a keysym stands for under the libX11 rule. */
  function KeysymToChar(k: Keysym): Option<char> {
    if Latin1Printable(k) then Some(k as char)
    else if UNICODE_BASE <= k < UNICODE_BASE + 0xD800 || UNICODE_BASE + 0xE000 <= k < UNICODE_BASE + 0x11_0000 then
      var cp := k - UNICODE_BASE;
      if Latin1Printable(cp) then None else Some(cp as char)
    else None
  }

  /** No two characters share a keysym: the keysym determines the character. */
  lemma KeysymDeterminesChar(c: char)
    ensures KeysymToChar(CharToKeysym(c)) == Some(c)
  {
  }

  function PlanString(s: string): (ks: seq<Keysym>)
    ensures |ks| == |s|
    ensures forall i :: 0 <= i < |s| ==> ks[i] == CharToKeysym(s[i])
  {
    if s == [] then [] else [CharToKeysym(s[0])] + PlanString(s[1..])
  }

  function LoginSequence(username: string, password: string): seq<Keysym> {
    PlanString(username) + [KEYSYM_TAB] + PlanString(password) + [KEYSYM_RETURN]
  }

  method BuildSequence(username: string, password: string) returns (keys: seq<Keysym>)
    ensures keys == LoginSequence(username, password)
  {
    keys := PlanString(username);
    keys := keys + [KEYSYM_TAB];
    keys := keys + PlanString(password);
    keys := keys + [KEYSYM_RETURN];
  }

  // ----- reading the two strings back -----

  /** Characters up to the first `stop`, which is the only non-character before it; what follows is returned too. */
  function ReadUntil(ks: seq<Keysym>, stop: Keysym): Option<(string, seq<Keysym>)> {
    if ks == [] then None
    else if ks[0] == stop then Some(([], ks[1..]))
    else
      match (KeysymToChar(ks[0]), ReadUntil(ks[1..], stop))
      case (Some(c), Some((s, rest))) => Some(([c] + s, rest))
      case _ => None
  }

  function DecodeLogin(ks: seq<Keysym>): Option<(string, string)> {
    match ReadUntil(ks, KEYSYM_TAB)
    case None => None
    case Some((username, rest)) =>
      match ReadUntil(rest, KEYSYM_RETURN)
      case Some((password, after)) => if after == [] then Some((username, password)) else None
      case _ => None
  }

  lemma {:induction false} ReadUntilStops(s: string, stop: Keysym, rest: seq<Keysym>)
    requires stop == KEYSYM_TAB || stop == KEYSYM_RETURN
    ensures ReadUntil(PlanString(s) + [stop] + rest, stop) == Some((s, rest))
  {
    var ks := PlanString(s) + [stop] + rest;
    if s == [] {
      assert ks[1..] == rest;
    } else {
      KeysymDeterminesChar(s[0]);
      assert ks[0] == CharToKeysym(s[0]) && ks[1..] == PlanString(s[1..]) + [stop] + rest;
      assert [s[0]] + s[1..] == s;
      ReadUntilStops(s[1..], stop, rest);
    }
  }

  /** The login sequence is uniquely decodable, for every username and password. */
  lemma LoginSequenceDecodes(username: string, password: string)
    ensures DecodeLogin(LoginSequence(username, password)) == Some((username, password))
  {
    var tail := PlanString(password) + [KEYSYM_RETURN];
    assert LoginSequence(username, password) == PlanString(username) + [KEYSYM_TAB] + tail;
    ReadUntilStops(username, KEYSYM_TAB, tail);
    assert tail == PlanString(password) + [KEYSYM_RETURN] + [];
    ReadUntilStops(password, KEYSYM_RETURN, []);
  }
}
