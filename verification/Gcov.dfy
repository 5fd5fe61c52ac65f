// The buffered reader of coverage files (coverage/bb2lines/gcov-io.cpp).  Through refills, growth of the
// buffer and jumps it is a plain cursor over the words of the file.

module Gcov {
  import opened Unsigned
  import opened Wrappers

  type Word = bv32

  const BLOCK_SIZE := 1024

  // The largest file, in words, whose byte positions fit an unsigned.
  const LIMIT := 0x4000_0000

  // The largest request for which the room in the buffer, in bytes, does.
  const REQUEST_LIMIT := LIMIT / 8

  // from_file() of the other byte order
  function Swapped(value: Word): Word {
    var v := (value >> 16) | (value << 16);
    ((v & 0xff00ff) << 8) | ((v >> 8) & 0xff00ff)
  }

  function Ordered(value: Word, endian: bool): Word {
    if endian then Swapped(value) else value
  }

  // A word that is a length.
  function Count(value: Word): (n: nat)
    ensures n < WORD && (n == 0 <==> value == 0)
  {
    value as nat
  }

  // The number n is the word read as an unsigned.
  predicate Denotes(value: Word, n: nat) {
    n < WORD && n as Word == value
  }

  lemma {:induction false} CountDenotes(value: Word)
    ensures Denotes(value, Count(value))
  {
  }

  lemma {:induction false} SwapsBytes(v: Word)
    ensures Swapped(v) & 0xff == v >> 24 && (Swapped(v) >> 8) & 0xff == (v >> 16) & 0xff
    ensures (Swapped(v) >> 16) & 0xff == (v >> 8) & 0xff && Swapped(v) >> 24 == v & 0xff
    ensures Swapped(Swapped(v)) == v
  {
  }

  // ----- the room a refill finds -------------------------------------------------------------------

  // The size of the buffer after gcov_allocate.
  function Grown(size: nat, more: nat): nat {
    ((if size == 0 then BLOCK_SIZE else size) + more) * 2
  }

  function Resized(size: nat, excess: nat, words: nat): nat {
    if U32(excess + words) > size then Grown(size, U32(excess + words)) else size
  }

  // How many words one fread() asks for: the room is counted in bytes, as an unsigned.
  function Asked(room: int): nat {
    U32(U32(room) * 4) / 4
  }

  // How many words it gets.
  function Got(size: nat, at: nat, room: nat): nat {
    if at > size then 0 else if size - at < Asked(room) then size - at else Asked(room)
  }

  lemma {:induction false} GotFits(size: nat, at: nat, room: nat)
    ensures Got(size, at, room) <= room && (at <= size ==> at + Got(size, at, room) <= size)
    ensures at > size ==> Got(size, at, room) == 0
  {
  }

  // Whether a refill has room for the missing words.
  predicate Roomy(size: nat, excess: nat, words: nat) {
    words - excess <= Asked(Resized(size, excess, words) - excess)
  }

  lemma {:induction false} AllAsked(room: nat)
    requires room < LIMIT
    ensures Asked(room) == room
  {
    Fits(room);
    Fits(room * 4);
  }

  // With requests within the limit the buffer stays small enough, and a refill always has room.
  lemma {:induction false} RoomForAll(size: nat, excess: nat, words: nat)
    requires size < LIMIT && excess <= size && excess < words <= REQUEST_LIMIT
    ensures Roomy(size, excess, words) && excess + words <= Resized(size, excess, words) < LIMIT
  {
    hide U32, Asked;
    Fits(excess + words);
    AllAsked(Resized(size, excess, words) - excess);
  }

  // A request that has no room in a fresh buffer, however long the file.
  lemma {:induction false} NoRoom()
    ensures !Roomy(0, 0, LIMIT / 2)
  {
    Fits(LIMIT / 2);
    assert Resized(0, 0, LIMIT / 2) == LIMIT + 2 * BLOCK_SIZE;
  }

  class Reader {
    const file: seq<Word>
    const mode: int
    var at: nat             // where fread() goes on, in words
    var start: nat
    var offset: nat
    var length: nat
    var overread: nat
    var endian: bool
    var buffer: array<Word>

    // gcov_open
    constructor (file: seq<Word>, mode: int)
      requires |file| < LIMIT
      ensures Ready() && Cursor() == 0 && !endian && this.file == file && this.mode == mode && fresh(buffer)
    {
      this.file := file;
      this.mode := mode;
      at, start, offset, length := 0, 0, 0, 0;
      overread := WORD - 1;
      endian := false;
      buffer := new Word[0];
    }

    // What every call keeps, whatever was read before.
    ghost predicate Sane()
      reads this
    {
      && |file| < LIMIT && at < LIMIT && start < WORD
      && offset <= length <= buffer.Length && length <= at && (length > 0 ==> at <= |file|)
    }

    // The buffer holds what comes before the position in the file.
    ghost predicate Buffered()
      reads this`at, this`start, this`length, this`buffer, buffer
    {
      && length <= buffer.Length && at == start + length && (length > 0 ==> at <= |file|)
      && forall i :: 0 <= i < length ==> buffer[i] == file[start + i]
    }

    ghost predicate InStep()
      reads this, buffer
    {
      Sane() && Buffered()
    }

    // In step, and the room in the buffer, in bytes, fits an unsigned.
    ghost predicate Ready()
      reads this, buffer
    {
      InStep() && buffer.Length < LIMIT
    }

    // After a failed read nothing is buffered.
    ghost predicate Adrift()
      reads this
    {
      Sane() && length == 0
    }

    // As a rule the file is then at its end, and every further read fails.
    ghost predicate Spent()
      reads this
    {
      Adrift() && at >= |file|
    }

    function Cursor(): nat
      reads this
    {
      start + offset
    }

    // gcov_allocate; the size is that of the buffer.
    method Allocate(more: nat)
      requires length <= buffer.Length
      modifies this`buffer
      ensures fresh(buffer) && buffer.Length == Grown(old(buffer.Length), more)
      ensures buffer[..length] == old(buffer[..length])
    {
      var size := buffer.Length;
      if size == 0 {
        size := BLOCK_SIZE;
      }
      size := size + more;
      size := size * 2;
      var b := new Word[size];
      forall i | 0 <= i < length {
        b[i] := buffer[i];
      }
      buffer := b;
    }

    // What is left in the buffer moves to its front.
    method Compact()
      requires Sane()
      modifies this`start, this`offset, this`length, buffer
      ensures Sane() && start == U32(old(Cursor())) && offset == 0 && length == old(length - offset)
      ensures old(InStep()) ==> InStep() && start == old(Cursor())
    {
      hide U32;
      var excess := length - offset;
      forall i | 0 <= i < excess {
        buffer[i] := buffer[offset + i];
      }
      Fits(start + offset);
      start := U32(start + offset);
      offset := 0;
      length := excess;
    }

    // fread() into the rest of the buffer
    method Fill()
      requires Sane() && offset == 0
      modifies this`at, this`length, buffer
      ensures var got := Got(|file|, old(at), buffer.Length - old(length));
        Sane() && at == old(at) + got && length == old(length) + got
      ensures old(InStep()) ==> InStep()
    {
      hide Got;
      var got := Got(|file|, at, buffer.Length - length);
      GotFits(|file|, at, buffer.Length - length);
      forall i | 0 <= i < got {
        buffer[length + i] := file[at + i];
      }
      ghost var was := length;
      at := at + got;
      length := length + got;
      forall i | was <= i < length
        ensures buffer[i] == file[old(at) + (i - was)]
      {
        assert buffer[was + (i - was)] == file[old(at) + (i - was)];
      }
    }

    // The part of gcov_read_words that gets more of the file into the buffer.
    method Refill(words: nat) returns (ok: bool)
      requires Sane() && length - offset < words < WORD
      modifies this, buffer
      ensures Sane() && start == U32(old(Cursor())) && offset == 0
      ensures endian == old(endian) && (buffer == old(buffer) || fresh(buffer)) && (ok ==> overread == old(overread))
      ensures buffer.Length == Resized(old(buffer.Length), old(length - offset), words)
      ensures if ok then length >= words else Adrift()
      ensures old(InStep()) ==> start == old(Cursor()) && (ok ==> InStep())
      ensures old(InStep()) ==> (ok <==> old(Cursor()) + words <= |file| && Roomy(old(buffer.Length), old(length - offset), words))
      ensures !ok && Roomy(old(buffer.Length), old(length - offset), words) ==> Spent()
      ensures old(Spent()) ==> !ok && Spent()
    {
      hide U32, Asked;
      Compact();
      if U32(length + words) > buffer.Length {
        Allocate(U32(length + words));
      }
      Fill();
      ok := length >= words;
      if !ok {
        Fits(overread + words - length);
        overread := U32(overread + words - length);
        length := 0;
      }
    }

    lemma {:induction false} Delivered(first: nat, words: nat)
      requires InStep() && first + words <= length && words > 0
      ensures start + first + words <= |file| && buffer[first..first + words] == file[start + first..start + first + words]
    {
    }

    // Whether what is asked for is there, and finds room.
    ghost predicate Has(words: nat)
      requires Sane()
      reads this
    {
      words <= length - offset || (Cursor() + words <= |file| && Roomy(buffer.Length, length - offset, words))
    }

    // gcov_read_words: either the next words of the file are at first in the buffer, or there are not
    // that many, or not enough room.
    method ReadWords(words: nat) returns (ok: bool, first: nat)
      requires Sane() && words < WORD
      modifies this, buffer
      ensures Sane() && endian == old(endian) && (buffer == old(buffer) || fresh(buffer))
      ensures buffer.Length ==
        if mode > 0 && old(length - offset) < words then Resized(old(buffer.Length), old(length - offset), words)
        else old(buffer.Length)
      ensures ok ==> mode > 0 && first + words <= buffer.Length
      ensures old(InStep()) ==> (ok <==> mode > 0 && old(Has(words)))
      ensures old(InStep()) && ok ==> InStep() && Cursor() == old(Cursor()) + words
      ensures old(InStep()) && ok && words > 0 ==>
        old(Cursor()) + words <= |file| && buffer[first..first + words] == file[old(Cursor())..old(Cursor()) + words]
      ensures old(InStep()) && !ok ==> Cursor() == old(Cursor())
      ensures !ok && mode > 0 ==> Adrift() && start == U32(old(Cursor()))
      ensures !ok && mode > 0 && Roomy(old(buffer.Length), old(length - offset), words) ==> Spent()
      ensures old(Spent()) && mode > 0 ==> (ok <==> words == 0) && Spent()
    {
      hide U32, Buffered, Resized, Roomy;
      ok, first := false, 0;
      var excess := length - offset;
      if mode <= 0 {
        return;
      }
      if excess < words {
        var refilled := Refill(words);
        if !refilled {
          return;
        }
      }
      ok := true;
      first := offset;
      offset := offset + words;
      if InStep() && words > 0 {
        Delivered(first, words);
      }
    }

    lemma {:induction false} Holds()
      requires InStep()
      ensures start + length == at < LIMIT && (length > 0 ==> at <= |file|)
    {
    }

    // A request within the limit, from a small buffer.
    lemma {:induction false} Served(words: nat)
      ensures Ready() && words <= REQUEST_LIMIT && length - offset < words ==>
        Resized(buffer.Length, length - offset, words) < LIMIT && Roomy(buffer.Length, length - offset, words)
      ensures Ready() && words <= REQUEST_LIMIT ==> (Has(words) <==> words == 0 || Cursor() + words <= |file|)
    {
      hide Roomy, Resized, U32;
      if Ready() && words <= REQUEST_LIMIT && length - offset < words {
        RoomForAll(buffer.Length, length - offset, words);
      }
    }

    // gcov_read_unsigned: zero also stands for a failed read.
    method ReadUnsigned() returns (value: Word)
      requires Sane() && mode > 0
      modifies this, buffer
      ensures Sane() && endian == old(endian) && (buffer == old(buffer) || fresh(buffer))
      ensures old(Ready()) && old(Cursor()) < |file| ==>
        && value == Ordered(file[old(Cursor())], endian) && Ready() && Cursor() == old(Cursor()) + 1
        && (if endian then Swapped(value) else value) == file[old(Cursor())]
      ensures old(Ready()) && old(Cursor()) >= |file| ==> value == 0 && Spent() && start == old(Cursor())
      ensures old(Spent()) ==> value == 0 && Spent() && start == U32(old(Cursor()))
    {
      hide U32, Buffered, Resized, Roomy, Has;
      Served(1);
      if Ready() {
        Holds();
      }
      var ok, first := ReadWords(1);
      if !ok {
        return 0;
      }
      value := buffer[first];
      assert value == buffer[first..first + 1][0];
      if old(InStep()) {
        assert file[old(Cursor())..old(Cursor()) + 1][0] == file[old(Cursor())];
      }
      if endian {
        SwapsBytes(value);
        value := Swapped(value);
      }
    }

    // gcov_read_string: the words of the string, or none; n is its length word.
    method ReadString() returns (text: Option<seq<Word>>, ghost n: nat)
      requires Sane() && mode > 0
      modifies this, buffer
      ensures Sane() && endian == old(endian) && (buffer == old(buffer) || fresh(buffer))
      ensures old(Ready()) ==>
        var word := if old(Cursor()) < |file| then Ordered(file[old(Cursor())], endian) else 0;
        Denotes(word, n) && n == Count(word)
      ensures old(Ready()) ==>
        var c := old(Cursor());
        if c >= |file| then text == None && Spent()
        else if n == 0 then text == None && Ready() && Cursor() == c + 1
        else if text.Some? then
          && c + 1 + n <= |file| && text.value == file[c + 1..c + 1 + n]
          && InStep() && Cursor() == c + 1 + n && (n <= REQUEST_LIMIT ==> Ready())
        else
          (n <= REQUEST_LIMIT ==> c + 1 + n > |file|) && Adrift() && Cursor() == c + 1
    {
      hide Swapped, Ordered, Count, Denotes, InStep, Adrift, Spent, Sane, Has, Resized, Roomy, U32;
      var len := ReadUnsigned();
      CountDenotes(len);
      if len == 0 {
        return None, 0;
      }
      var words := Count(len);
      n := words;
      Served(words);
      var ok, first := ReadWords(words);
      if !ok {
        return None, n;
      }
      return Some(buffer[first..first + words]), n;
    }

    // gcov_position
    method Position() returns (p: nat)
      requires Sane()
      ensures p == U32(Cursor()) && (InStep() ==> p == Cursor())
    {
      hide U32, Buffered;
      Fits(start + offset);
      if InStep() {
        Holds();
      }
      return U32(start + offset);
    }

    // gcov_sync: a jump, by a byte position that is an unsigned, puts the reader in step again even after
    // a read past the end, exactly unless it leads back to the place of that read and the file is elsewhere.
    method Sync(base: nat, len: nat)
      requires Sane()
      modifies this`start, this`offset, this`length, this`at
      ensures Sane()
      ensures var target := U32(base + len);
        && (old(InStep()) ==> InStep() && Cursor() == target % LIMIT)
        && (old(Adrift()) ==>
              && (InStep() <==> old(start) != target || old(at) == target)
              && Cursor() == if old(start) == target then target else target % LIMIT)
        && (old(Adrift()) && old(start) == target ==> Adrift() && at == old(at))
    {
      hide U32;
      Fits(base + len);
      var target := U32(base + len);
      Fits(target - start);
      Seek(target);
      if U32(target - start) <= length {
        offset := U32(target - start);
      } else {
        offset, length := 0, 0;
        at := U32(target * 4) / 4;
        start := at;
      }
    }

    static lemma {:induction false} Seek(target: nat)
      requires target < WORD
      ensures U32(target * 4) / 4 == target % LIMIT && (target < LIMIT ==> target % LIMIT == target)
    {
    }

    // gcov_magic: the byte order of the file is found out from a word that is known.  Where bytes are
    // swapped already, a word that is as expected does not turn that off.
    method Magic(magic: Word, expected: Word) returns (r: int)
      modifies this`endian
      ensures r == 0 <==> magic != expected && Swapped(magic) != expected
      ensures r == 1 <==> magic == expected
      ensures r == -1 ==> Ordered(magic, endian) == expected
      ensures r == 1 ==> (Ordered(magic, endian) == expected <==> !old(endian) || Swapped(magic) == magic)
      ensures r == -1 || endian == old(endian)
    {
      if magic == expected {
        return 1;
      }
      if Swapped(magic) == expected {
        endian := true;
        return -1;
      }
      return 0;
    }
  }

  // The case gcov_sync misses: back at a place where too many words were asked for, nothing can be read
  // although the cursor is inside the file.
  method ReadBack(reader: Reader, words: nat) returns (value: Word)
    requires reader.Ready() && reader.mode > 0 && words <= REQUEST_LIMIT
    requires reader.Cursor() < |reader.file| < reader.Cursor() + words
    modifies reader, reader.buffer
    ensures value == 0 && reader.Cursor() == old(reader.Cursor()) < |reader.file| && !reader.InStep()
  {
    hide Resized, Roomy, Reader.Buffered, U32;
    var place := reader.Cursor();
    reader.Served(words);
    Fits(place + 0);
    var ok, first := reader.ReadWords(words);
    assert reader.start == place && reader.Spent();
    reader.Sync(place, 0);
    value := reader.ReadUnsigned();
    if reader.InStep() {
      reader.Holds();
      assert false;
    }
  }

  // ----- runs --------------------------------------------------------------------------------------

  // What a user of the reader does, and learns.
  datatype Request = NextWord | NextWords(n: nat) | NextText | Jump(base: nat, len: nat) | Where

  datatype Reply = Value(value: Word) | Words(words: Option<seq<Word>>) | Text(text: Option<seq<Word>>) | Jumped | Place(place: nat)

  datatype Answered = Answered(reply: Reply, cursor: nat)

  // What a plain cursor over the words of the file answers, and where it is then; nothing when a read
  // goes past the end of the file or is too large.
  function Next(file: seq<Word>, endian: bool, cursor: nat, r: Request): Option<Answered> {
    match r
    case NextWord =>
      if cursor < |file| then Some(Answered(Value(Ordered(file[cursor], endian)), cursor + 1)) else None
    case NextWords(n) =>
      if n == 0 then Some(Answered(Words(Some([])), cursor))
      else if cursor + n <= |file| && n <= REQUEST_LIMIT then Some(Answered(Words(Some(file[cursor..cursor + n])), cursor + n))
      else None
    case NextText =>
      if cursor >= |file| then None
      else
        var n := Count(Ordered(file[cursor], endian));
        if n == 0 then Some(Answered(Text(None), cursor + 1))
        else if cursor + 1 + n <= |file| && n <= REQUEST_LIMIT then
          Some(Answered(Text(Some(file[cursor + 1..cursor + 1 + n])), cursor + 1 + n))
        else None
    case Jump(base, len) => Some(Answered(Jumped, U32(base + len) % LIMIT))
    case Where => Some(Answered(Place(cursor), cursor))
  }

  // The text at a place: as many words as the one before it denotes, or none where that is zero.
  ghost predicate TextAt(file: seq<Word>, endian: bool, cursor: nat, n: nat) {
    cursor < |file| && Denotes(if endian then Swapped(file[cursor]) else file[cursor], n)
  }

  lemma {:induction false} NextTextIs(file: seq<Word>, endian: bool, cursor: nat)
    ensures match Next(file, endian, cursor, NextText)
      case None => cursor >= |file| || exists n: nat ::
        TextAt(file, endian, cursor, n) && n > 0 && (cursor + 1 + n > |file| || n > REQUEST_LIMIT)
      case Some(Answered(Text(Some(text)), place)) =>
        && TextAt(file, endian, cursor, |text|) && text != [] && |text| <= REQUEST_LIMIT
        && place == cursor + 1 + |text| <= |file| && text == file[cursor + 1..place]
      case Some(Answered(Text(None), place)) => TextAt(file, endian, cursor, 0) && place == cursor + 1
      case Some(_) => false
  {
    hide Count, Denotes, Swapped;
    if cursor < |file| {
      CountDenotes(Ordered(file[cursor], endian));
      assert TextAt(file, endian, cursor, Count(Ordered(file[cursor], endian)));
    }
  }

  function Plain(file: seq<Word>, endian: bool, cursor: nat, rs: seq<Request>): seq<Reply>
    decreases |rs|
  {
    if rs == [] then []
    else match Next(file, endian, cursor, rs[0])
      case None => []
      case Some(a) => [a.reply] + Plain(file, endian, a.cursor, rs[1..])
  }

  // One request, answered as the plain cursor does unless that has no answer.
  method Answer(reader: Reader, r: Request) returns (reply: Reply)
    requires reader.Sane() && reader.mode > 0 && (r.NextWords? ==> r.n < WORD)
    modifies reader, reader.buffer
    ensures reader.Sane() && reader.endian == old(reader.endian)
    ensures reader.buffer == old(reader.buffer) || fresh(reader.buffer)
    ensures old(reader.Ready()) ==>
      var next := Next(reader.file, reader.endian, old(reader.Cursor()), r);
      next == None || (next == Some(Answered(reply, reader.Cursor())) && reader.Ready())
  {
    hide Swapped, Ordered, Count, Denotes, Reader.Buffered, Resized, Roomy, U32, Reader.Has, Reader.Sane;
    match r {
      case NextWord =>
        var v := reader.ReadUnsigned();
        reply := Value(v);
      case NextWords(n) =>
        reader.Served(n);
        var ok, first := reader.ReadWords(n);
        reply := Words(if ok then Some(reader.buffer[first..first + n]) else None);
        assert ok && n == 0 ==> reader.buffer[first..first + n] == [];
      case NextText =>
        var text, n := reader.ReadString();
        reply := Text(text);
      case Jump(base, len) =>
        reader.Sync(base, len);
        reply := Jumped;
      case Where =>
        var p := reader.Position();
        reply := Place(p);
    }
  }

  // The replies so far, and that they go on as those of the cursor unless it has no answer any more.
  ghost predicate Follows(plain: seq<Reply>, replies: seq<Reply>, rest: seq<Reply>, failed: bool) {
    if failed then plain <= replies else plain == replies + rest
  }

  lemma {:induction false} FollowsOn(plain: seq<Reply>, replies: seq<Reply>, reply: Reply, file: seq<Word>, endian: bool,
      cursor: nat, rs: seq<Request>)
    requires rs != [] && Follows(plain, replies, Plain(file, endian, cursor, rs), false)
    ensures match Next(file, endian, cursor, rs[0])
      case None => Follows(plain, replies + [reply], [], true)
      case Some(a) =>
        a.reply == reply ==> Follows(plain, replies + [reply], Plain(file, endian, a.cursor, rs[1..]), false)
  {
    hide Next;
    assert replies + [] == replies;
    match Next(file, endian, cursor, rs[0])
    case None =>
    case Some(a) =>
      var rest := Plain(file, endian, a.cursor, rs[1..]);
      assert replies + ([reply] + rest) == replies + [reply] + rest;
  }

  lemma {:induction false} StaysFailed(plain: seq<Reply>, replies: seq<Reply>, reply: Reply)
    requires Follows(plain, replies, [], true)
    ensures Follows(plain, replies + [reply], [], true)
  {
  }

  lemma {:induction false} FollowsAll(file: seq<Word>, endian: bool, cursor: nat, plain: seq<Reply>, replies: seq<Reply>,
      failed: bool)
    ensures Follows(plain, [], plain, false)
    ensures Follows(plain, replies, Plain(file, endian, cursor, []), false) ==> plain <= replies
    ensures Follows(plain, replies, [], failed) ==> plain <= replies
  {
    assert [] + plain == plain;
  }

  predicate Legal(rs: seq<Request>) {
    forall i :: 0 <= i < |rs| && rs[i].NextWords? ==> rs[i].n < WORD
  }

  // Any mix of reads of words and strings, jumps and questions for the position gets the replies of the
  // plain cursor, as far as that has any.
  method Serve(reader: Reader, rs: seq<Request>) returns (replies: seq<Reply>)
    requires reader.Ready() && reader.mode > 0 && Legal(rs)
    modifies reader, reader.buffer
    ensures |replies| == |rs| && Plain(reader.file, old(reader.endian), old(reader.Cursor()), rs) <= replies
  {
    hide Plain, Next, Follows, Reader.Ready, Reader.Sane, Reader.Cursor, U32;
    Starts(reader);
    ghost var file, endian, cursor := reader.file, reader.endian, reader.Cursor();
    ghost var plain := Plain(file, endian, cursor, rs);
    ghost var failed := false;
    replies := [];
    assert rs[0..] == rs;
    FollowsAll(file, endian, cursor, plain, [], false);
    for i := 0 to |rs|
      invariant |replies| == i && reader.Sane() && reader.endian == endian
      invariant reader.buffer == old(reader.buffer) || fresh(reader.buffer)
      invariant failed || (reader.Ready() && reader.Cursor() == cursor)
      invariant Follows(plain, replies, if failed then [] else Plain(file, endian, cursor, rs[i..]), failed)
    {
      assert rs[i..][0] == rs[i] && rs[i..][1..] == rs[i + 1..];
      var reply := Answer(reader, rs[i]);
      if failed {
        StaysFailed(plain, replies, reply);
      } else {
        FollowsOn(plain, replies, reply, file, endian, cursor, rs[i..]);
        failed := Next(file, endian, cursor, rs[i]) == None;
      }
      cursor := reader.Cursor();
      replies := replies + [reply];
    }
    assert rs[|rs|..] == [];
    FollowsAll(file, endian, cursor, plain, replies, failed);
  }

  lemma {:induction false} Starts(reader: Reader)
    requires reader.Ready()
    ensures reader.Sane()
  {
  }
}
