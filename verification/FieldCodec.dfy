/** The payload fields of frame_stream.hpp: 32-bit integers in two's complement, length-prefixed
    strings, counted lists of strings and flags. */
module FieldCodec {
  import opened Wrappers
  import opened Bytes
  import ProtocolV3

  type Text = seq<Byte>

  const INT32_MAX := 0x7FFF_FFFF
  const MAX_ITEMS := 100000

  datatype Field = Int(i: int) | Str(s: Text) | List(l: seq<Text>) | Flag(b: bool)
  datatype Kind = AnInt | AStr | AList | AFlag

  predicate IsInt32(x: int) {
    -0x8000_0000 <= x <= INT32_MAX
  }

  predicate FitsString(s: Text) {
    |s| <= ProtocolV3.MAX_PAYLOAD
  }

  /** What can be written. */
  predicate Writable(f: Field) {
    match f
    case Int(i) => IsInt32(i)
    case Str(s) => FitsString(s)
    case List(l) => |l| <= INT32_MAX && forall k :: 0 <= k < |l| ==> FitsString(l[k])
    case Flag(_) => true
  }

  /** What can be read: lists are limited further. */
  predicate Readable(f: Field) {
    Writable(f) && (f.List? ==> |f.l| <= MAX_ITEMS)
  }

  predicate AllReadable(fs: seq<Field>)
    ensures AllReadable(fs) ==> AllWritable(fs)
  {
    forall k :: 0 <= k < |fs| ==> Readable(fs[k])
  }

  function KindOf(f: Field): Kind {
    match f
    case Int(_) => AnInt
    case Str(_) => AStr
    case List(_) => AList
    case Flag(_) => AFlag
  }

  // ----- Writing

  function PutInt(x: int): (b: seq<Byte>)
    requires IsInt32(x)
    ensures |b| == 4
  {
    Put32(if x < 0 then x + 0x1_0000_0000 else x)
  }

  function PutString(s: Text): seq<Byte>
    requires FitsString(s)
  {
    Put32(|s|) + s
  }

  function PutStrings(l: seq<Text>): seq<Byte>
    requires forall k :: 0 <= k < |l| ==> FitsString(l[k])
  {
    if l == [] then [] else PutString(l[0]) + PutStrings(l[1..])
  }

  function Put(f: Field): seq<Byte>
    requires Writable(f)
  {
    match f
    case Int(i) => PutInt(i)
    case Str(s) => PutString(s)
    case List(l) => PutInt(|l|) + PutStrings(l)
    case Flag(b) => PutInt(if b then 1 else 0)
  }

  predicate AllWritable(fs: seq<Field>) {
    forall k :: 0 <= k < |fs| ==> Writable(fs[k])
  }

  function PutAll(fs: seq<Field>): seq<Byte>
    requires AllWritable(fs)
  {
    if fs == [] then [] else Put(fs[0]) + PutAll(fs[1..])
  }

  // ----- Reading: the value and what follows it, or None where the original throws

  function GetInt(b: seq<Byte>): Option<(int, seq<Byte>)> {
    if |b| < 4 then None
    else
      var v := Get32(b[..4]);
      Some((if v > INT32_MAX then v - 0x1_0000_0000 else v, b[4..]))
  }

  function GetString(b: seq<Byte>): Option<(Text, seq<Byte>)> {
    if |b| < 4 then None
    else
      var n := Get32(b[..4]);
      if n > ProtocolV3.MAX_PAYLOAD || |b| - 4 < n then None
      else Some((b[4..4 + n], b[4 + n..]))
  }

  function GetStrings(n: nat, b: seq<Byte>): Option<(seq<Text>, seq<Byte>)> {
    if n == 0 then Some(([], b))
    else
      match GetString(b)
      case None => None
      case Some((s, rest)) =>
        match GetStrings(n - 1, rest)
        case None => None
        case Some((l, rest')) => Some(([s] + l, rest'))
  }

  function GetFlag(b: seq<Byte>): Option<(bool, seq<Byte>)> {
    match GetInt(b)
    case None => None
    case Some((i, rest)) => if i == 0 || i == 1 then Some((i == 1, rest)) else None
  }

  function GetList(b: seq<Byte>): Option<(seq<Text>, seq<Byte>)> {
    match GetInt(b)
    case None => None
    case Some((i, rest)) => if 0 <= i <= MAX_ITEMS then GetStrings(i, rest) else None
  }

  function Tagged<T>(r: Option<(T, seq<Byte>)>, tag: T -> Field): Option<(Field, seq<Byte>)> {
    if r.Some? then Some((tag(r.value.0), r.value.1)) else None
  }

  function Get(kind: Kind, b: seq<Byte>): Option<(Field, seq<Byte>)> {
    match kind
    case AnInt => Tagged(GetInt(b), (i: int) => Int(i))
    case AStr => Tagged(GetString(b), (s: Text) => Str(s))
    case AList => Tagged(GetList(b), (l: seq<Text>) => List(l))
    case AFlag => Tagged(GetFlag(b), (v: bool) => Flag(v))
  }

  function GetAll(schema: seq<Kind>, b: seq<Byte>): Option<(seq<Field>, seq<Byte>)> {
    if schema == [] then Some(([], b))
    else
      match Get(schema[0], b)
      case None => None
      case Some((f, rest)) =>
        match GetAll(schema[1..], rest)
        case None => None
        case Some((fs, rest')) => Some(([f] + fs, rest'))
  }

  // ----- What the fields look like

  /** Integers are in two's complement, most significant byte first. */
  lemma IntLayout(x: int)
    requires IsInt32(x)
    ensures |PutInt(x)| == 4 && Value(PutInt(x)) == if x < 0 then x + 0x1_0000_0000 else x
  {
    WrittenValue(if x < 0 then x + 0x1_0000_0000 else x);
  }

  /** Strings have their length in front, up to 4 MiB. */
  lemma StringLayout(s: Text)
    ensures Writable(Str(s)) <==> |s| <= 4194304
    ensures Writable(Str(s)) ==> Value(Put(Str(s))[..4]) == |s| && Put(Str(s))[4..] == s
  {
    if FitsString(s) {
      WrittenValue(|s|);
      assert PutString(s)[..4] == Put32(|s|);
    }
  }

  /** Lists have their count in front. */
  lemma ListLayout(l: seq<Text>)
    requires Writable(List(l))
    ensures Value(Put(List(l))[..4]) == |l| && Put(List(l))[4..] == PutStrings(l)
    ensures l != [] ==> PutStrings(l) == Put(Str(l[0])) + PutStrings(l[1..])
  {
    IntLayout(|l|);
    assert Put(List(l))[..4] == PutInt(|l|);
  }

  lemma FlagLayout(b: bool)
    ensures Put(Flag(b)) == [0, 0, 0, if b then 1 else 0]
  {}

  lemma {:induction false} PutAllAppend(a: seq<Field>, b: seq<Field>)
    requires AllWritable(a) && AllWritable(b)
    ensures AllWritable(a + b) && PutAll(a + b) == PutAll(a) + PutAll(b)
  {
    if a == [] {
      assert a + b == b && [] + PutAll(b) == PutAll(b);
    } else {
      assert (a + b)[1..] == a[1..] + b;
      PutAllAppend(a[1..], b);
      Associative(Put(a[0]), PutAll(a[1..]), PutAll(b));
    }
  }

  // ----- Reading undoes writing

  lemma GetPutInt(x: int, rest: seq<Byte>)
    requires IsInt32(x)
    ensures GetInt(PutInt(x) + rest) == Some((x, rest))
  {
    var b := PutInt(x) + rest;
    assert b[..4] == PutInt(x) && b[4..] == rest;
    Put32Get32(if x < 0 then x + 0x1_0000_0000 else x);
  }

  lemma GetPutString(s: Text, rest: seq<Byte>)
    requires FitsString(s)
    ensures GetString(PutString(s) + rest) == Some((s, rest))
  {
    var b := PutString(s) + rest;
    assert b[..4] == Put32(|s|);
    Put32Get32(|s|);
    assert b[4..4 + |s|] == s && b[4 + |s|..] == rest;
  }

  lemma {:induction false} GetPutStrings(l: seq<Text>, rest: seq<Byte>)
    requires forall k :: 0 <= k < |l| ==> FitsString(l[k])
    ensures GetStrings(|l|, PutStrings(l) + rest) == Some((l, rest))
  {
    if l == [] {
      assert PutStrings(l) + rest == rest;
    } else {
      var tail := PutStrings(l[1..]) + rest;
      Associative(PutString(l[0]), PutStrings(l[1..]), rest);
      GetPutString(l[0], tail);
      GetPutStrings(l[1..], rest);
      assert l == [l[0]] + l[1..];
    }
  }

  lemma GetPutList(l: seq<Text>, rest: seq<Byte>)
    requires Readable(List(l))
    ensures GetList(Put(List(l)) + rest) == Some((l, rest))
  {
    Associative(PutInt(|l|), PutStrings(l), rest);
    GetPutInt(|l|, PutStrings(l) + rest);
    GetPutStrings(l, rest);
  }

  lemma GetPut(f: Field, rest: seq<Byte>)
    requires Readable(f)
    ensures Get(KindOf(f), Put(f) + rest) == Some((f, rest))
  {
    match f
    case Int(i) => GetPutInt(i, rest);
    case Str(s) => GetPutString(s, rest);
    case Flag(b) => GetPutInt(if b then 1 else 0, rest);
    case List(l) =>
      GetPutList(l, rest);
  }

  ghost predicate HasShape(fs: seq<Field>, schema: seq<Kind>) {
    |fs| == |schema| && forall k :: 0 <= k < |fs| ==> KindOf(fs[k]) == schema[k]
  }

  lemma GetAllStep(kind: Kind, schema: seq<Kind>, b: seq<Byte>, f: Field, rest: seq<Byte>)
    requires Get(kind, b) == Some((f, rest))
    ensures GetAll([kind] + schema, b) ==
      match GetAll(schema, rest)
      case None => None
      case Some((fs, rest')) => Some(([f] + fs, rest'))
  {}

  lemma {:induction false} GetPutAll(fs: seq<Field>, schema: seq<Kind>, rest: seq<Byte>)
    requires HasShape(fs, schema) && AllReadable(fs)
    ensures GetAll(schema, PutAll(fs) + rest) == Some((fs, rest))
  {
    if fs == [] {
      assert PutAll(fs) + rest == rest;
    } else {
      var tail := PutAll(fs[1..]) + rest;
      assert PutAll(fs) + rest == Put(fs[0]) + tail;
      assert schema == [KindOf(fs[0])] + schema[1..] && fs == [fs[0]] + fs[1..];
      GetPut(fs[0], tail);
      GetPutAll(fs[1..], schema[1..], rest);
      GetAllStep(schema[0], schema[1..], PutAll(fs) + rest, fs[0], tail);
    }
  }

  /** A list that can be written but is too long to be read back is refused. */
  lemma RefusesOne(f: Field, rest: seq<Byte>)
    requires Writable(f) && !Readable(f)
    ensures Get(KindOf(f), Put(f) + rest) == None
  {
    assert Put(f) + rest == PutInt(|f.l|) + (PutStrings(f.l) + rest);
    GetPutInt(|f.l|, PutStrings(f.l) + rest);
  }

  lemma {:induction false} RefusesTooLong(fs: seq<Field>, schema: seq<Kind>, rest: seq<Byte>)
    requires HasShape(fs, schema) && AllWritable(fs) && !AllReadable(fs)
    ensures GetAll(schema, PutAll(fs) + rest) == None
  {
    var tail := PutAll(fs[1..]) + rest;
    assert PutAll(fs) + rest == Put(fs[0]) + tail;
    assert KindOf(fs[0]) == schema[0];
    if Readable(fs[0]) {
      GetPut(fs[0], tail);
      assert !AllReadable(fs[1..]) by {
        var k :| 0 <= k < |fs| && !Readable(fs[k]);
        assert fs[1..][k - 1] == fs[k];
      }
      RefusesTooLong(fs[1..], schema[1..], rest);
    } else {
      RefusesOne(fs[0], tail);
    }
  }

  // ----- Writing undoes reading

  lemma PutGetInt(b: seq<Byte>)
    requires GetInt(b).Some?
    ensures var (i, rest) := GetInt(b).value; IsInt32(i) && b == PutInt(i) + rest
  {
    Get32Put32(b[..4]);
    assert b == b[..4] + b[4..];
  }

  lemma PutGetString(b: seq<Byte>)
    requires GetString(b).Some?
    ensures var (s, rest) := GetString(b).value; FitsString(s) && b == PutString(s) + rest
  {
    Get32Put32(b[..4]);
    var n := Get32(b[..4]);
    assert b == b[..4] + b[4..4 + n] + b[4 + n..];
  }

  lemma {:induction false} PutGetStrings(n: nat, b: seq<Byte>)
    requires GetStrings(n, b).Some?
    ensures var (l, rest) := GetStrings(n, b).value;
      |l| == n && (forall k :: 0 <= k < |l| ==> FitsString(l[k])) && b == PutStrings(l) + rest
  {
    if n > 0 {
      PutGetString(b);
      var (s, rest) := GetString(b).value;
      PutGetStrings(n - 1, rest);
      var (l, rest') := GetStrings(n - 1, rest).value;
      assert ([s] + l)[1..] == l;
      assert PutString(s) + (PutStrings(l) + rest') == PutString(s) + PutStrings(l) + rest';
    }
  }

  lemma PutGet(kind: Kind, b: seq<Byte>)
    requires Get(kind, b).Some?
    ensures var (f, rest) := Get(kind, b).value; KindOf(f) == kind && Readable(f) && b == Put(f) + rest
  {
    match kind
    case AStr => PutGetString(b);
    case AnInt => PutGetInt(b);
    case AFlag => PutGetInt(b);
    case AList =>
      PutGetInt(b);
      var (i, rest) := GetInt(b).value;
      PutGetStrings(i, rest);
      var (l, rest') := GetStrings(i, rest).value;
      assert PutInt(i) + (PutStrings(l) + rest') == PutInt(i) + PutStrings(l) + rest';
  }

  lemma {:induction false} PutGetAll(schema: seq<Kind>, b: seq<Byte>)
    requires GetAll(schema, b).Some?
    ensures var (fs, rest) := GetAll(schema, b).value;
      HasShape(fs, schema) && AllReadable(fs) && b == PutAll(fs) + rest
  {
    if schema != [] {
      PutGet(schema[0], b);
      var (f, rest) := Get(schema[0], b).value;
      PutGetAll(schema[1..], rest);
      var (fs, rest') := GetAll(schema[1..], rest).value;
      assert ([f] + fs)[1..] == fs;
      assert Put(f) + (PutAll(fs) + rest') == Put(f) + PutAll(fs) + rest';
    }
  }

  // ----- The stream with its cursor

  /** iframe_stream: a failed read leaves the cursor where it was. */
  class InputStream {
    const frame: seq<Byte>
    var position: nat

    ghost predicate Valid()
      reads this
    {
      position <= |frame|
    }

    function Remaining(): seq<Byte>
      requires Valid()
      reads this
    {
      frame[position..]
    }

    constructor (frame: seq<Byte>)
      ensures Valid() && this.frame == frame && position == 0
    {
      this.frame, position := frame, 0;
    }

    method ReadU32() returns (value: Option<U32>)
      requires Valid()
      modifies this`position
      ensures Valid()
      ensures value == if |old(Remaining())| < 4 then None else Some(Get32(old(Remaining())[..4]))
      ensures position == old(position) + if value.Some? then 4 else 0
    {
      if |frame| - position < 4 { return None; }
      var v: int := 0;
      for i := 0 to 4
        invariant v == Accumulated(frame[position..position + 4], i)
      {
        v := v * 0x100 + frame[position + i];
      }
      assert frame[position..position + 4] == Remaining()[..4];
      value := Some(v);
      position := position + 4;
    }

    method ReadInt() returns (value: Option<int>)
      requires Valid()
      modifies this`position
      ensures Valid()
      ensures match GetInt(old(Remaining()))
        case None => value == None && position == old(position)
        case Some((i, rest)) => value == Some(i) && Remaining() == rest
    {
      var bits := ReadU32();
      if bits == None { return None; }
      value := Some(if bits.value > INT32_MAX then (bits.value as int) - 0x1_0000_0000 else bits.value);
    }

    /** The length is read first; the guard moves the cursor back if the text is not there. */
    method ReadString() returns (value: Option<Text>)
      requires Valid()
      modifies this`position
      ensures Valid()
      ensures match GetString(old(Remaining()))
        case None => value == None && position == old(position)
        case Some((s, rest)) => value == Some(s) && Remaining() == rest
    {
      var length := ReadU32();
      if length == None { return None; }
      if length.value > ProtocolV3.MAX_PAYLOAD || |frame| - position < length.value {
        position := position - 4;
        return None;
      }
      assert old(Remaining())[4..4 + length.value] == frame[position..position + length.value];
      value := Some(frame[position..position + length.value]);
      position := position + length.value;
    }
  }

  /** The value of the first `n` of four bytes, most significant first. */
  function Accumulated(b: seq<Byte>, n: nat): (v: int)
    requires |b| == 4 && n <= 4
    ensures n == 4 ==> v == Get32(b)
  {
    if n == 0 then 0
    else if n == 1 then b[0]
    else if n == 2 then 0x100 * b[0] + b[1]
    else if n == 3 then 0x1_0000 * b[0] + 0x100 * b[1] + b[2]
    else Get32(b)
  }
}
