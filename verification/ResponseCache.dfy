/**
 The cache of responses (router/cache/cache.go): files named by the hash of their key, each with the whole key and an
 expiry before its body.
 */
module ResponseCache {
  import opened Keys
  import opened Lists

  type Bytes = string

  datatype Key = Key(selectors: Bytes, view: string)

  datatype Meta = Meta(key: Key, expireAt: int)

  datatype File = File(meta: Meta, body: Bytes)

  function KeyBytes(location: string, key: Key): Bytes {
    location + "/" + key.selectors + "/" + key.view
  }

  /** Copies a part of the key, and returns where the next part goes. */
  method Copy(buffer: array<char>, offset: nat, part: Bytes) returns (next: nat)
    requires offset + |part| <= buffer.Length
    modifies buffer
    ensures next == offset + |part|
    ensures buffer[..next] == old(buffer[..offset]) + part
  {
    for i := 0 to |part|
      invariant buffer[..offset + i] == old(buffer[..offset]) + part[..i]
    {
      buffer[offset + i] := part[i];
    }
    return offset + |part|;
  }

  method Combine(location: string, key: Key, hash: Bytes -> nat) returns (sum: nat)
    ensures sum == hash(KeyBytes(location, key))
  {
    var buffer := new char[|location| + |key.selectors| + |key.view| + 2](_ => '\0');
    var offset := Copy(buffer, 0, location);
    offset := Copy(buffer, offset, "/");
    offset := Copy(buffer, offset, key.selectors);
    offset := Copy(buffer, offset, "/");
    offset := Copy(buffer, offset, key.view);
    assert buffer[..offset] == buffer[..];
    assert buffer[..] == KeyBytes(location, key);
    return hash(buffer[..]);
  }

  /** A slash in a view name makes two keys alike even before they are hashed. */
  lemma KeysCanCollide(location: string)
    ensures KeyBytes(location, Key("a/b", "c")) == KeyBytes(location, Key("a", "b/c"))
  {
    assert location + "/" + "a/b" + "/" + "c" == location + "/a/b/c" == location + "/" + "a" + "/" + "b/c";
  }

  /** Two keys for which the same bytes are hashed. */
  predicate Alike(location: string, k: Key, l: Key) {
    k != l && KeyBytes(location, k) == KeyBytes(location, l)
  }

  predicate EndsWith(s: Bytes, end: Bytes) {
    |end| <= |s| && s[|s| - |end|..] == end
  }

  lemma KeyBytesEnd(location: string, key: Key)
    ensures KeyBytes(location, key) == (location + "/" + key.selectors) + ("/" + key.view)
  {}

  /** Of two ends of a text, the longer one ends with the shorter one. */
  lemma EndsNest(s: Bytes, long: Bytes, short: Bytes)
    requires EndsWith(s, long) && EndsWith(s, short) && |short| <= |long|
    ensures EndsWith(long, short)
  {
    assert s[|s| - |long|..][|long| - |short|..] == s[|s| - |short|..];
  }

  lemma SameLengths(location: string, k: Key, l: Key)
    requires KeyBytes(location, k) == KeyBytes(location, l) && |k.view| == |l.view|
    ensures k == l
  {
    var head, head' := location + "/" + k.selectors, location + "/" + l.selectors;
    KeyBytesEnd(location, k);
    KeyBytesEnd(location, l);
    assert head == KeyBytes(location, k)[..|head|] == head';
    assert head[|location| + 1..] == k.selectors && head'[|location| + 1..] == l.selectors;
    assert ("/" + k.view)[1..] == k.view && ("/" + l.view)[1..] == l.view;
    assert KeyBytes(location, k)[|head|..] == "/" + k.view && KeyBytes(location, l)[|head|..] == "/" + l.view;
  }

  lemma AlikeEnds(location: string, k: Key, l: Key)
    requires Alike(location, k, l) && |l.view| <= |k.view|
    ensures EndsWith(k.view, "/" + l.view)
  {
    var s, x, y := KeyBytes(location, k), "/" + k.view, "/" + l.view;
    KeyBytesEnd(location, k);
    KeyBytesEnd(location, l);
    assert EndsWith(s, x) && EndsWith(s, y);
    EndsNest(s, x, y);
    if |x| == |y| {
      SameLengths(location, k, l);
    } else {
      assert x[|x| - |y|..] == k.view[|k.view| - |y|..];
    }
  }

  lemma EndsAlike(location: string, v: string, w: string)
    requires EndsWith(v, "/" + w)
    ensures Alike(location, Key("", v), Key("/" + v[..|v| - |w| - 1], w))
  {
    var x := v[..|v| - |w| - 1];
    assert v == x + ("/" + w);
    assert KeyBytes(location, Key("", v)) == location + "/" + "" + "/" + v == location + "//" + v;
    assert KeyBytes(location, Key("/" + x, w)) == location + "/" + ("/" + x) + "/" + w ==
           location + "//" + (x + ("/" + w));
    assert |w| < |v|;
  }

  /**
   Selectors that make the keys of two views alike exist exactly when one view's name ends with a slash and the
   other's.
   */
  lemma AlikeExactlyWhen(location: string, v: string, w: string)
    ensures (exists a, b :: Alike(location, Key(a, v), Key(b, w))) <==> EndsWith(v, "/" + w) || EndsWith(w, "/" + v)
  {
    if a, b :| Alike(location, Key(a, v), Key(b, w)) {
      if |w| <= |v| {
        AlikeEnds(location, Key(a, v), Key(b, w));
      } else {
        AlikeEnds(location, Key(b, w), Key(a, v));
      }
    }
    if EndsWith(v, "/" + w) {
      EndsAlike(location, v, w);
    }
    if EndsWith(w, "/" + v) {
      EndsAlike(location, w, v);
      assert Alike(location, Key("/" + w[..|w| - |v| - 1], v), Key("", w));
    }
  }

  lemma SlashWithin(v: string, w: string)
    requires EndsWith(v, "/" + w)
    ensures '/' in v
  {
    assert v[|v| - |w| - 1..][0] == '/';
  }

  /** Views without a slash have keys of their own. */
  lemma KeysDiffer(location: string, k: Key, l: Key)
    requires '/' !in k.view && '/' !in l.view && KeyBytes(location, k) == KeyBytes(location, l)
    ensures k == l
  {
    if k != l {
      var long, short := if |l.view| <= |k.view| then k else l, if |l.view| <= |k.view| then l else k;
      AlikeEnds(location, long, short);
      SlashWithin(long.view, short.view);
    }
  }

  /** What can go wrong while a file is looked up. */
  datatype Fault = NoFault | NotSeen | OpenFails | BadMeta | DeleteFails

  /** What can go wrong while a file is written: before it is opened, or afterwards. */
  datatype PutFault = Stored | NotOpened | NotWritten

  class Entry {
    const key: Key
    const url: string
    var reader: Option<Bytes>

    constructor (key: Key, url: string)
      ensures this.key == key && this.url == url && reader == None
    {
      this.key, this.url, reader := key, url, None;
    }
  }

  /**
   The cache as a value: its files, the last response that was written for each key, the keys asked for, and the time.
   */
  datatype State = State(location: string, hash: Bytes -> nat, files: map<string, File>, written: map<Key, File>,
                               used: set<Key>, clock: int)

  function UrlOf(location: string, hash: Bytes -> nat, key: Key): string {
    location + Itoa(hash(KeyBytes(location, key))) + ".json"
  }

  ghost predicate Apart(location: string, hash: Bytes -> nat, used: set<Key>) {
    forall k, l :: k in used && l in used && UrlOf(location, hash, k) == UrlOf(location, hash, l) ==> k == l
  }

  /** A file is the last response of its key. */
  ghost predicate Kept(s: State, url: string)
    requires url in s.files
  {
    var key := s.files[url].meta.key;
    UrlOf(s.location, s.hash, key) == url && key in s.written && s.written[key] == s.files[url]
  }

  /** A response is there until a time after its expiry has come. */
  ghost predicate Present(s: State, key: Key)
    requires key in s.written
  {
    var url := UrlOf(s.location, s.hash, key);
    s.clock <= s.written[key].meta.expireAt ==> url in s.files && s.files[url] == s.written[key]
  }

  ghost predicate Sound(s: State) {
    && (forall url {:trigger Kept(s, url)} :: url in s.files ==> Kept(s, url))
    && (forall key :: key in s.written ==> key in s.used && s.written[key].meta.key == key)
    && (Apart(s.location, s.hash, s.used) ==>
          forall key {:trigger Present(s, key)} :: key in s.written ==> Present(s, key))
  }

  lemma LaterSound(s: State, key: Key, now: int)
    requires Sound(s) && s.clock <= now
    ensures Sound(s.(used := s.used + {key}, clock := now))
  {
    var t := s.(used := s.used + {key}, clock := now);
    forall url | url in t.files ensures Kept(t, url) {
      assert Kept(s, url);
    }
    if Apart(t.location, t.hash, t.used) {
      assert Apart(s.location, s.hash, s.used);
      forall k | k in t.written ensures Present(t, k) {
        assert Present(s, k);
      }
    }
  }

  /** A file that is expired or belongs to another key is not missed. */
  lemma DeletedSound(s: State, key: Key)
    requires Sound(s) && key in s.used && UrlOf(s.location, s.hash, key) in s.files
    requires var file := s.files[UrlOf(s.location, s.hash, key)]; s.clock > file.meta.expireAt || file.meta.key != key
    ensures Sound(s.(files := s.files - {UrlOf(s.location, s.hash, key)}))
  {
    var url := UrlOf(s.location, s.hash, key);
    var t := s.(files := s.files - {url});
    assert Kept(s, url);
    forall u | u in t.files ensures Kept(t, u) {
      assert Kept(s, u);
    }
    if Apart(s.location, s.hash, s.used) {
      forall k | k in t.written ensures Present(t, k) {
        assert Present(s, k);
      }
    }
  }

  /** Without collisions a file answers a key exactly when a response was written for it and has not expired. */
  lemma AnswersWhenWritten(s: State, key: Key)
    requires Sound(s) && key in s.used && Apart(s.location, s.hash, s.used)
    ensures var url := UrlOf(s.location, s.hash, key);
            (url in s.files && s.files[url].meta.key == key && s.clock <= s.files[url].meta.expireAt) <==>
            (key in s.written && s.clock <= s.written[key].meta.expireAt)
  {
    var url := UrlOf(s.location, s.hash, key);
    if url in s.files {
      assert Kept(s, url);
    }
    if key in s.written {
      assert Present(s, key);
    }
  }

  lemma FailedSound(s: State, key: Key)
    requires Sound(s) && key in s.used
    ensures Sound(s.(files := s.files - {UrlOf(s.location, s.hash, key)}, written := s.written - {key}))
  {
    var t := s.(files := s.files - {UrlOf(s.location, s.hash, key)}, written := s.written - {key});
    forall u | u in t.files ensures Kept(t, u) {
      assert Kept(s, u);
    }
    if Apart(s.location, s.hash, s.used) {
      forall k | k in t.written ensures Present(t, k) {
        assert Present(s, k);
      }
    }
  }

  lemma WrittenSound(s: State, key: Key, file: File)
    requires Sound(s) && key in s.used && file.meta.key == key
    ensures Sound(s.(files := s.files[UrlOf(s.location, s.hash, key) := file], written := s.written[key := file]))
  {
    var t := s.(files := s.files[UrlOf(s.location, s.hash, key) := file], written := s.written[key := file]);
    forall u | u in t.files ensures Kept(t, u) {
      assert u in s.files ==> Kept(s, u);
    }
    if Apart(s.location, s.hash, s.used) {
      forall k | k in t.written ensures Present(t, k) {
        assert k in s.written ==> Present(s, k);
      }
    }
  }

  class Cache {
    const location: string
    const hash: Bytes -> nat
    const ttl: nat
    var files: map<string, File>

    /** The last response that was written for each key, and the keys that were asked for. */
    ghost var written: map<Key, File>
    ghost var used: set<Key>
    /** The latest time at which the cache was used. */
    ghost var clock: int

    constructor (location: string, hash: Bytes -> nat, ttl: nat, now: int)
      ensures Valid() && files == map[] && written == map[] && used == {} && clock == now
      ensures this.location == location && this.hash == hash && this.ttl == ttl
    {
      this.location, this.hash, this.ttl := location, hash, ttl;
      files, written, used, clock := map[], map[], {}, now;
    }

    function Url(key: Key): string {
      UrlOf(location, hash, key)
    }

    ghost predicate Valid()
      reads this
    {
      Sound(State(location, hash, files, written, used, clock))
    }

    /** No two of the keys that were asked for share a file. */
    ghost predicate NoCollision()
      reads this
    {
      Apart(location, hash, used)
    }

    /**
     Looks a response up. A hit streams the last response that was written for the very same key and has not expired; a
     file of another key or an expired one is deleted.
     */
    method Get(selectors: Bytes, view: string, now: int, fault: Fault) returns (entry: Entry, ok: bool)
      requires Valid() && clock <= now
      modifies this
      ensures Valid() && clock == now && used == old(used) + {Key(selectors, view)} && written == old(written)
      ensures fresh(entry) && entry.key == Key(selectors, view) && entry.url == Url(entry.key)
      ensures entry.reader.Some? ==>
                && entry.key in written && entry.reader.value == written[entry.key].body
                && now <= written[entry.key].meta.expireAt
      ensures entry.reader.Some? ==> ok && files == old(files)
      ensures fault.NoFault? ==> ok
      ensures fault.NoFault? && NoCollision() ==>
                (entry.reader.Some? <==> entry.key in written && now <= written[entry.key].meta.expireAt)
    {
      var key := Key(selectors, view);
      var sum := Combine(location, key, hash);
      var url := location + Itoa(sum) + ".json";
      entry := new Entry(key, url);
      ghost var before := State(location, hash, files, written, used, clock);
      used, clock := used + {key}, now;
      LaterSound(before, key, now);
      if NoCollision() {
        AnswersWhenWritten(State(location, hash, files, written, used, clock), key);
      }
      if url !in files || fault.NotSeen? {
        return entry, true;
      }
      if fault.OpenFails? || fault.BadMeta? {
        return entry, false;
      }
      var file := files[url];
      if now > file.meta.expireAt || file.meta.key != key {
        if fault.DeleteFails? {
          return entry, false;
        }
        DeletedSound(State(location, hash, files, written, used, clock), key);
        files := files - {url};
        return entry, true;
      }
      assert Kept(State(location, hash, files, written, used, clock), url);
      entry.reader := Some(file.body);
      return entry, true;
    }

    /**
     Writes the response of a miss. A write that fails leaves no file; if the file was not opened, an older one stays.
     After a hit nothing is written.
     */
    method Put(entry: Entry, response: Bytes, now: int, fault: PutFault) returns (ok: bool)
      requires Valid() && clock <= now && entry.url == Url(entry.key) && entry.key in used
      modifies this
      ensures Valid() && clock == now && used == old(used)
      ensures ok == (entry.reader.Some? || fault.Stored?)
      ensures entry.reader.Some? || fault.NotOpened? ==> files == old(files) && written == old(written)
      ensures entry.reader.None? && fault.Stored? ==>
                && written == old(written)[entry.key := File(Meta(entry.key, now + ttl), response)]
                && files == old(files)[entry.url := written[entry.key]]
      ensures entry.reader.None? && fault.NotWritten? ==>
                written == old(written) - {entry.key} && files == old(files) - {entry.url}
    {
      LaterSound(State(location, hash, files, written, used, clock), entry.key, now);
      assert used + {entry.key} == used;
      clock := now;
      ghost var s := State(location, hash, files, written, used, clock);
      if entry.reader.Some? {
        return true;
      }
      if fault.NotOpened? {
        return false;
      }
      if fault.NotWritten? {
        FailedSound(s, entry.key);
        files := files - {entry.url};
        written := written - {entry.key};
        return false;
      }
      var file := File(Meta(entry.key, now + ttl), response);
      WrittenSound(s, entry.key, file);
      files := files[entry.url := file];
      written := written[entry.key := file];
      return true;
    }
  }
}
