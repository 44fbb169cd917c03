/** The episode key of a drifted line: its current position in base 62, four digits wide. */
module DriftKey {

  const HASH_LEN := 4
  const SPACE := 14776336

  /** The 62-letter alphabet: upper case, lower case, digits. */
  function Letter(i: nat): char
    requires i < 62
  {
    if i < 26 then ('A' as int + i) as char else if i < 52 then ('a' as int + (i - 26)) as char
      else ('0' as int + (i - 52)) as char
  }

  function IndexOf(c: char): nat
  {
    if 'A' <= c <= 'Z' then c as int - 'A' as int
    else if 'a' <= c <= 'z' then c as int - 'a' as int + 26
    else if '0' <= c <= '9' then c as int - '0' as int + 52
    else 0
  }

  function Encode(idx: nat, width: nat): string
    decreases width
  {
    if width == 0 then "" else Encode(idx / 62, width - 1) + [Letter(idx % 62)]
  }

  method DriftEpisodeKey(position: int) returns (key: string)
    ensures key == EpisodeKey(position)
  {
    if position < 0 || position >= SPACE { return ""; }
    var idx: nat := position;
    key := "";
    for j := 0 to HASH_LEN
      invariant Encode(idx, HASH_LEN - j) + key == Encode(position, HASH_LEN)
    {
      key := [Letter(idx % 62)] + key;
      idx := idx / 62;
    }
  }

  function EpisodeKey(position: int): string
  {
    if position < 0 || position >= SPACE then "" else Encode(position, HASH_LEN)
  }

  function Decode(key: string): nat
  {
    if key == "" then 0 else 62 * Decode(key[..|key| - 1]) + IndexOf(key[|key| - 1])
  }

  function Pow62(width: nat): nat
  {
    if width == 0 then 1 else 62 * Pow62(width - 1)
  }

  lemma {:induction false} DecodeEncode(idx: nat, width: nat)
    requires idx < Pow62(width)
    ensures |Encode(idx, width)| == width && Decode(Encode(idx, width)) == idx
    decreases width
  {
    if width > 0 {
      DecodeEncode(idx / 62, width - 1);
      var head, last := Encode(idx / 62, width - 1), Letter(idx % 62);
      assert (head + [last])[..|head + [last]| - 1] == head;
      assert IndexOf(last) == idx % 62;
    }
  }

  /** Positions inside the key space have keys of their own; a position outside it has the empty key. */
  lemma KeysAreInjective(position: int)
    ensures if 0 <= position < SPACE then |EpisodeKey(position)| == HASH_LEN && Decode(EpisodeKey(position)) == position
            else EpisodeKey(position) == ""
  {
    if 0 <= position < SPACE {
      assert Pow62(1) == 62 && Pow62(2) == 3844 && Pow62(3) == 238328 && Pow62(4) == SPACE;
      DecodeEncode(position, HASH_LEN);
    }
  }
}
