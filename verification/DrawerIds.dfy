/**
 Ids of mined drawers: `wing/room/hash-index`, with the index padded to four digits.
 `hash` stands for the hexadecimal BLAKE3 digest of a text.
 */
module DrawerIds {
  import opened Options
  import opened Ids

  ghost predicate HashOk(hash: string -> string) {
    forall s :: |hash(s)| == 64 && forall i :: 0 <= i < 64 ==> '0' <= hash(s)[i] <= '9' || 'a' <= hash(s)[i] <= 'f'
  }

  // ----- decimal numbers -----

  function Digit(n: nat): (c: char)
    requires n < 10
    ensures '0' <= c <= '9'
  {
    '0' + n as char
  }

  function Decimal(n: nat): (s: string)
    ensures |s| > 0 && forall i :: 0 <= i < |s| ==> '0' <= s[i] <= '9'
  {
    if n < 10 then [Digit(n)] else Decimal(n / 10) + [Digit(n % 10)]
  }

  function Zeros(count: nat): (s: string)
    ensures |s| == count && forall i :: 0 <= i < count ==> s[i] == '0'
  {
    seq(count, i => '0')
  }

  /** `{:04}`. */
  function Padded(n: nat): (s: string)
    ensures |s| >= 4 && forall i :: 0 <= i < |s| ==> '0' <= s[i] <= '9'
  {
    var d := Decimal(n);
    if |d| < 4 then Zeros(4 - |d|) + d else d
  }

  predicate IsDigits(s: string) {
    forall i :: 0 <= i < |s| ==> '0' <= s[i] <= '9'
  }

  function Value(s: string): nat
    requires IsDigits(s)
  {
    if s == [] then 0 else 10 * Value(s[..|s| - 1]) + (s[|s| - 1] as int - '0' as int)
  }

  lemma {:induction false} ValueOfDecimal(n: nat)
    ensures Value(Decimal(n)) == n
  {
    var s := Decimal(n);
    if n < 10 {
      assert s[..0] == [];
    } else {
      assert s[..|s| - 1] == Decimal(n / 10);
      ValueOfDecimal(n / 10);
    }
  }

  lemma {:induction false} ValueOfPadding(z: string, s: string)
    requires (forall i :: 0 <= i < |z| ==> z[i] == '0') && IsDigits(s)
    ensures IsDigits(z + s) && Value(z + s) == Value(s)
    decreases |s|, |z|
  {
    if s == [] {
      assert z + s == z;
      if z != [] {
        ValueOfPadding(z[..|z| - 1], []);
        assert z[..|z| - 1] + [] == z[..|z| - 1];
      }
    } else {
      assert (z + s)[..|z + s| - 1] == z + s[..|s| - 1];
      ValueOfPadding(z, s[..|s| - 1]);
    }
  }

  lemma ValueOfPadded(n: nat)
    ensures Value(Padded(n)) == n
  {
    ValueOfDecimal(n);
    if |Decimal(n)| < 4 {
      ValueOfPadding(Zeros(4 - |Decimal(n)|), Decimal(n));
    }
  }

  /** Four digits, or as many as the number has when it has more; and no zero in front of more than four. */
  lemma {:induction false} PaddedLength(n: nat)
    ensures n < 10_000 <==> |Padded(n)| == 4
    ensures n >= 10_000 ==> Padded(n)[0] != '0'
  {
    DecimalLength(n);
  }

  lemma {:induction false} DecimalLength(n: nat)
    ensures n > 0 ==> Decimal(n)[0] != '0'
    ensures n < 10 <==> |Decimal(n)| == 1
    ensures n < 100 <==> |Decimal(n)| <= 2
    ensures n < 1_000 <==> |Decimal(n)| <= 3
    ensures n < 10_000 <==> |Decimal(n)| <= 4
  {
    if n >= 10 {
      DecimalLength(n / 10);
    }
  }

  // ----- the id -----

  function Join(wing: string, room: string, source: string, index: nat): string {
    wing + "/" + room + "/" + source + "-" + Padded(index)
  }

  /** `mined_drawer_id`: `None` stands for an id that fails validation. */
  function MinedDrawerId(hash: string -> string, wing: string, room: string, sourceKey: string, index: nat): Option<string>
    requires |hash(sourceKey)| >= 12
  {
    var id := Join(wing, room, hash(sourceKey)[..12], index);
    if ValidId(id) then Some(id) else None
  }

  lemma ValidAppend(a: string, b: string)
    requires ValidId(a) && ValidId(b)
    ensures ValidId(a + b)
  {
  }

  /** Validation never fails for a valid wing and a valid room. */
  lemma MinedIdIsValid(hash: string -> string, wing: string, room: string, sourceKey: string, index: nat)
    requires HashOk(hash) && ValidId(wing) && ValidId(room)
    ensures MinedDrawerId(hash, wing, room, sourceKey, index).Some?
  {
    var source := hash(sourceKey)[..12];
    assert ValidId(source) && ValidId(Padded(index)) && ValidId("/") && ValidId("-");
    hide ValidId;
    ValidAppend(wing, "/");
    ValidAppend(wing + "/", room);
    ValidAppend(wing + "/" + room, "/");
    ValidAppend(wing + "/" + room + "/", source);
    ValidAppend(wing + "/" + room + "/" + source, "-");
    ValidAppend(wing + "/" + room + "/" + source + "-", Padded(index));
  }

  // ----- reading an id back -----

  function LastDash(s: string): (i: int)
    ensures -1 <= i < |s| && (i >= 0 ==> s[i] == '-')
    ensures forall k :: i < k < |s| ==> s[k] != '-'
  {
    if s == [] then -1
    else if s[|s| - 1] == '-' then |s| - 1
    else LastDash(s[..|s| - 1])
  }

  datatype Parts = Parts(room: string, source: string, index: nat)

  /** For a known wing: the digits after the last dash, the twelve characters before it, and the room before those. */
  function Parse(wing: string, id: string): Option<Parts> {
    var dash := LastDash(id);
    if !(wing + "/" <= id) || dash < |wing| + 14 || !IsDigits(id[dash + 1..]) || id[dash - 13] != '/' then None
    else Some(Parts(id[|wing| + 1..dash - 13], id[dash - 12..dash], Value(id[dash + 1..])))
  }

  lemma {:induction false} LastDashOfJoin(front: string, digits: string)
    requires IsDigits(digits)
    ensures LastDash(front + "-" + digits) == |front|
    decreases |digits|
  {
    var s := front + "-" + digits;
    if digits == [] {
      assert s[|s| - 1] == '-';
    } else {
      assert s[|s| - 1] == digits[|digits| - 1];
      assert s[..|s| - 1] == front + "-" + digits[..|digits| - 1];
      LastDashOfJoin(front, digits[..|digits| - 1]);
    }
  }

  /** Where the parts of an id lie. */
  lemma JoinLayout(wing: string, room: string, source: string, digits: string)
    requires |source| == 12
    ensures var front := wing + "/" + room + "/" + source;
            var id := front + "-" + digits;
            var dash := |front|;
            && wing + "/" <= id
            && dash == |wing| + |room| + 14
            && id[dash + 1..] == digits
            && id[dash - 13] == '/'
            && id[|wing| + 1..dash - 13] == room
            && id[dash - 12..dash] == source
  {
    var a := wing + "/";
    var front := a + room + "/" + source;
    var id := front + "-" + digits;
    assert id[..|a|] == a;
    assert id[|front| + 1..] == digits;
    assert id[|a|..|a| + |room|] == room;
    assert id[|a| + |room| + 1..|front|] == source;
  }

  /**
   For a fixed wing, the room, the twelve characters of the source hash and the chunk index
   are read back from the id, for every index and for rooms that contain slashes and dashes.
   */
  lemma ParseOfJoin(wing: string, room: string, source: string, index: nat)
    requires |source| == 12
    ensures Parse(wing, Join(wing, room, source, index)) == Some(Parts(room, source, index))
  {
    hide LastDash, Value, Padded;
    var front := wing + "/" + room + "/" + source;
    LastDashOfJoin(front, Padded(index));
    JoinLayout(wing, room, source, Padded(index));
    ValueOfPadded(index);
    var id := Join(wing, room, source, index);
    assert id == front + "-" + Padded(index);
  }

  /** So under one wing two mined drawers have one id only if they agree in all three. */
  lemma MinedIdsAreUnique(hash: string -> string, wing: string, room: string, key: string, index: nat,
                          room': string, key': string, index': nat)
    requires HashOk(hash) && ValidId(wing) && ValidId(room) && ValidId(room')
    requires MinedDrawerId(hash, wing, room, key, index) == MinedDrawerId(hash, wing, room', key', index')
    ensures room == room' && hash(key)[..12] == hash(key')[..12] && index == index'
  {
    MinedIdIsValid(hash, wing, room, key, index);
    MinedIdIsValid(hash, wing, room', key', index');
    ParseOfJoin(wing, room, hash(key)[..12], index);
    ParseOfJoin(wing, room', hash(key')[..12], index');
  }

  // ----- reading an id back without knowing its wing -----

  /** What an id determines when its wing is not known: the wing and the room as one text, the source and the index. */
  lemma JoinDecides(wing: string, room: string, source: string, index: nat,
                    wing': string, room': string, source': string, index': nat)
    requires |source| == 12 == |source'|
    ensures Join(wing, room, source, index) == Join(wing', room', source', index') <==>
            wing + "/" + room == wing' + "/" + room' && source == source' && index == index'
  {
    hide Padded, Parse, Join;
    var front, front' := wing + "/" + room, wing' + "/" + room';
    JoinAfterSlash(wing, room, source, index);
    JoinAfterSlash(wing', room', source', index');
    ParseOfJoin("", front, source, index);
    ParseOfJoin("", front', source', index');
    if Join(wing, room, source, index) == Join(wing', room', source', index') {
      assert Join("", front, source, index) == Join("", front', source', index');
    }
  }

  /** Behind a slash, an id is the id of an empty wing. */
  lemma JoinAfterSlash(wing: string, room: string, source: string, index: nat)
    ensures Join("", wing + "/" + room, source, index) == "/" + Join(wing, room, source, index)
    ensures Join(wing, room, source, index) == (wing + "/" + room) + ("/" + source + "-" + Padded(index))
  {
    hide Padded;
    var tail := "/" + source + "-" + Padded(index);
    assert Join(wing, room, source, index) == (wing + "/" + room) + tail;
    assert Join("", wing + "/" + room, source, index) == "/" + ((wing + "/" + room) + tail);
  }

  /** Another wing and room that read as the same text. */
  ghost predicate SameFront(wing: string, room: string, wing': string, room': string) {
    ValidId(wing') && ValidId(room') && wing' + "/" + room' == wing + "/" + room
  }

  /** No slash but the one between wing and room could be the one between them. */
  predicate OneSplit(wing: string, room: string) {
    && (forall i :: 0 < i < |wing| ==> wing[i] != '/')
    && (forall i :: 0 <= i < |room| - 1 ==> room[i] != '/')
  }

  lemma OtherSplit(wing: string, room: string) returns (wing': string, room': string)
    requires ValidId(wing) && ValidId(room) && !OneSplit(wing, room)
    ensures SameFront(wing, room, wing', room') && wing' != wing
  {
    if i :| 0 < i < |wing| && wing[i] == '/' {
      assert wing == wing[..i] + "/" + wing[i + 1..];
      wing', room' := wing[..i], wing[i + 1..] + "/" + room;
      assert wing' + "/" + room' == (wing[..i] + "/" + wing[i + 1..]) + "/" + room;
    } else {
      var i :| 0 <= i < |room| - 1 && room[i] == '/';
      assert room == room[..i] + "/" + room[i + 1..];
      wing', room' := wing + "/" + room[..i], room[i + 1..];
      assert wing' + "/" + room' == wing + "/" + (room[..i] + "/" + room[i + 1..]);
    }
  }

  lemma OnlySplit(wing: string, room: string, wing': string, room': string)
    requires ValidId(wing) && ValidId(room) && OneSplit(wing, room) && SameFront(wing, room, wing', room')
    ensures wing' == wing
  {
    var front, n := wing + "/" + room, |wing'|;
    assert front[n] == (wing' + "/" + room')[n] == '/';
    assert forall i :: 0 <= i < |wing| ==> front[i] == wing[i];
    assert forall i :: |wing| < i < |front| ==> front[i] == room[i - |wing| - 1];
    assert n == |wing|;
    assert wing' == front[..n] == wing;
  }

  /** Every drawer that has this id was mined into this wing. */
  ghost predicate WingDetermined(hash: string -> string, wing: string, room: string, key: string, index: nat)
    requires HashOk(hash)
  {
    forall wing', room', key', index' ::
      (&& ValidId(wing') && ValidId(room')
       && MinedDrawerId(hash, wing', room', key', index') == MinedDrawerId(hash, wing, room, key, index)) ==> wing' == wing
  }

  /**
   Across wings an id determines the wing exactly when the wing has no slash after its first
   character and the room none before its last: otherwise another split of the two is valid.
   */
  lemma WingIsRecoverableExactly(hash: string -> string, wing: string, room: string, key: string, index: nat)
    requires HashOk(hash) && ValidId(wing) && ValidId(room)
    ensures WingDetermined(hash, wing, room, key, index) <==> OneSplit(wing, room)
  {
    hide Join, ValidId;
    MinedIdIsValid(hash, wing, room, key, index);
    if OneSplit(wing, room) {
      forall wing', room', key', index' | ValidId(wing') && ValidId(room') &&
          MinedDrawerId(hash, wing', room', key', index') == MinedDrawerId(hash, wing, room, key, index)
        ensures wing' == wing
      {
        MinedIdIsValid(hash, wing', room', key', index');
        JoinDecides(wing, room, hash(key)[..12], index, wing', room', hash(key')[..12], index');
        OnlySplit(wing, room, wing', room');
      }
    } else {
      var wing', room' := OtherSplit(wing, room);
      MinedIdIsValid(hash, wing', room', key, index);
      JoinDecides(wing, room, hash(key)[..12], index, wing', room', hash(key)[..12], index);
    }
  }

  /** Two valid wings with one id: `a/b` with room `c`, and `a` with room `b/c`. */
  lemma WingIsNotRecoverable(hash: string -> string, key: string, index: nat)
    requires HashOk(hash)
    ensures MinedDrawerId(hash, "a/b", "c", key, index).Some?
    ensures MinedDrawerId(hash, "a/b", "c", key, index) == MinedDrawerId(hash, "a", "b/c", key, index)
  {
    MinedIdIsValid(hash, "a/b", "c", key, index);
    MinedIdIsValid(hash, "a", "b/c", key, index);
    assert "a/b" + "/" + "c" == "a" + "/" + "b/c";
    JoinDecides("a/b", "c", hash(key)[..12], index, "a", "b/c", hash(key)[..12], index);
  }

  /** What an id looks like. */
  lemma IdOfExample(hash: string -> string)
    requires HashOk(hash) && hash("src/main.rs")[..12] == "0123456789ab"
    ensures MinedDrawerId(hash, "wing_x", "room", "src/main.rs", 7) == Some("wing_x/room/0123456789ab-0007")
  {
    assert Padded(7) == "0007";
    assert "wing_x" + "/" + "room" + "/" + "0123456789ab" + "-" + "0007" == "wing_x/room/0123456789ab-0007";
    assert ValidId("wing_x") && ValidId("room");
    MinedIdIsValid(hash, "wing_x", "room", "src/main.rs", 7);
  }
}
