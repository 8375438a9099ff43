/** The `-e` argument of a playbook run is a space-separated list of `key=value` pairs, one of
    them double-quoted. This module gives the pairs a structure, a reader for such a list, and
    the conditions under which the list reads back as the pairs it was written from. */
module Payload {

  datatype Option<T> = None | Some(value: T)

  /** One `key=value` pair; a quoted one is written `key="value"`. */
  datatype Field = Field(key: string, value: string, quoted: bool)

  function EncodeField(f: Field): string {
    f.key + "=" + (if f.quoted then "\"" + f.value + "\"" else f.value)
  }

  /** The pairs joined by single spaces. */
  function Encode(fs: seq<Field>): string
    decreases |fs|
  {
    if |fs| == 0 then ""
    else if |fs| == 1 then EncodeField(fs[0])
    else EncodeField(fs[0]) + " " + Encode(fs[1..])
  }

  lemma EncodeCons(f: Field, fs: seq<Field>)
    requires |fs| > 0
    ensures Encode([f] + fs) == EncodeField(f) + " " + Encode(fs)
  {
    assert ([f] + fs)[1..] == fs;
  }

  /** Appending one more pair adds a space and that pair. */
  lemma {:induction false} EncodeSnoc(fs: seq<Field>, f: Field)
    requires |fs| > 0
    ensures Encode(fs + [f]) == Encode(fs) + " " + EncodeField(f)
    decreases |fs|
  {
    if |fs| == 1 {
      assert fs + [f] == [fs[0]] + [f];
      EncodeCons(fs[0], [f]);
    } else {
      assert fs + [f] == [fs[0]] + (fs[1..] + [f]);
      EncodeCons(fs[0], fs[1..] + [f]);
      EncodeSnoc(fs[1..], f);
      EncodeCons(fs[0], fs[1..]);
      assert [fs[0]] + fs[1..] == fs;
    }
  }

  /** A pair that survives the round trip: no `=` in the key, no `"` in the value, and no
      space in a value that is not quoted. */
  predicate Plain(f: Field) {
    '=' !in f.key && '"' !in f.value && (f.quoted || ' ' !in f.value)
  }

  /** The index of the first `c` in `s`, or `|s|` if there is none. */
  function IndexOf(s: string, c: char): (k: nat)
    ensures k <= |s| && (k < |s| ==> s[k] == c)
    ensures forall j :: 0 <= j < k ==> s[j] != c
    decreases |s|
  {
    if |s| == 0 || s[0] == c then 0 else 1 + IndexOf(s[1..], c)
  }

  /** Reads one pair from the front of `t`: the key runs to the first `=`, then the value.
      Returns the pair and what follows it. */
  function ReadField(t: string): (r: Option<(Field, string)>)
    ensures r.Some? ==> |r.value.1| < |t|
  {
    var eq := IndexOf(t, '=');
    if eq == |t| then None else ReadValue(t[..eq], t[eq + 1..])
  }

  /** A value that starts with `"` runs to the next `"`; any other value to the next space. */
  function ReadValue(key: string, after: string): (r: Option<(Field, string)>)
    ensures r.Some? ==> |r.value.1| <= |after|
  {
    if |after| > 0 && after[0] == '"' then ReadQuoted(key, after[1..]) else ReadBare(key, after)
  }

  function ReadQuoted(key: string, inner: string): (r: Option<(Field, string)>)
    ensures r.Some? ==> |r.value.1| < |inner|
  {
    var close := IndexOf(inner, '"');
    if close == |inner| then None else Some((Field(key, inner[..close], true), inner[close + 1..]))
  }

  function ReadBare(key: string, after: string): (r: Option<(Field, string)>)
    ensures r.Some? ==> |r.value.1| <= |after|
  {
    var stop := IndexOf(after, ' ');
    Some((Field(key, after[..stop], false), after[stop..]))
  }

  /** Reads pairs separated by single spaces up to the end of `t`. */
  function Decode(t: string): Option<seq<Field>>
    decreases |t|
  {
    match ReadField(t)
    case None => None
    case Some((f, rest)) =>
      if rest == "" then Some([f])
      else if rest[0] != ' ' then None
      else match Decode(rest[1..])
        case None => None
        case Some(more) => Some([f] + more)
  }

  /** The first `c` of `a + b` is the first `c` of `b` when `a` has none. */
  lemma {:induction false} IndexOfAfter(a: string, b: string, c: char)
    requires c !in a
    ensures IndexOf(a + b, c) == |a| + IndexOf(b, c)
    decreases |a|
  {
    if |a| > 0 {
      assert (a + b)[0] == a[0];
      assert (a + b)[1..] == a[1..] + b;
      IndexOfAfter(a[1..], b, c);
    } else {
      assert a + b == b;
    }
  }

  lemma ReadFieldKey(key: string, after: string)
    requires '=' !in key
    ensures ReadField(key + "=" + after) == ReadValue(key, after)
  {
    var t := key + "=" + after;
    assert t == key + ("=" + after);
    IndexOfAfter(key, "=" + after, '=');
    assert t[..|key|] == key;
    assert t[|key| + 1..] == after;
  }

  lemma ReadQuotedBack(key: string, v: string, post: string)
    requires '"' !in v
    ensures ReadQuoted(key, v + "\"" + post) == Some((Field(key, v, true), post))
  {
    var inner := v + "\"" + post;
    assert inner == v + ("\"" + post);
    IndexOfAfter(v, "\"" + post, '"');
    assert inner[..|v|] == v;
    assert inner[|v| + 1..] == post;
  }

  lemma ReadBareBack(key: string, v: string, post: string)
    requires ' ' !in v
    requires post == "" || post[0] == ' '
    ensures ReadBare(key, v + post) == Some((Field(key, v, false), post))
  {
    IndexOfAfter(v, post, ' ');
    assert (v + post)[..|v|] == v;
    assert (v + post)[|v|..] == post;
  }

  lemma ReadBackQuoted(f: Field, post: string)
    requires Plain(f) && f.quoted
    ensures ReadField(EncodeField(f) + post) == Some((f, post))
  {
    var after := "\"" + f.value + "\"" + post;
    assert EncodeField(f) + post == f.key + "=" + after;
    ReadFieldKey(f.key, after);
    assert after[1..] == f.value + "\"" + post;
    ReadQuotedBack(f.key, f.value, post);
  }

  lemma ReadBackBare(f: Field, post: string)
    requires Plain(f) && !f.quoted
    requires post == "" || post[0] == ' '
    ensures ReadField(EncodeField(f) + post) == Some((f, post))
  {
    var after := f.value + post;
    assert EncodeField(f) + post == f.key + "=" + after;
    ReadFieldKey(f.key, after);
    if |f.value| > 0 {
      assert after[0] == f.value[0];
      assert f.value[0] in f.value;
    }
    ReadBareBack(f.key, f.value, post);
  }

  /** A plain pair followed by the end or by a space is read back whole. */
  lemma ReadBack(f: Field, post: string)
    requires Plain(f)
    requires post == "" || post[0] == ' '
    ensures ReadField(EncodeField(f) + post) == Some((f, post))
  {
    if f.quoted {
      ReadBackQuoted(f, post);
    } else {
      ReadBackBare(f, post);
    }
  }

  /** The round trip: a non-empty list of plain pairs decodes to itself. */
  lemma {:induction false} RoundTrip(fs: seq<Field>)
    requires |fs| > 0 && forall j :: 0 <= j < |fs| ==> Plain(fs[j])
    ensures Decode(Encode(fs)) == Some(fs)
    decreases |fs|
  {
    if |fs| == 1 {
      ReadBack(fs[0], "");
      assert Encode(fs) == EncodeField(fs[0]) + "";
      assert [fs[0]] == fs;
    } else {
      JoinSpace(EncodeField(fs[0]), Encode(fs[1..]));
      RoundTrip(fs[1..]);
      DecodeJoin(fs[0], Encode(fs[1..]), fs[1..]);
      assert [fs[0]] + fs[1..] == fs;
    }
  }

  lemma JoinSpace(x: string, y: string)
    ensures x + " " + y == x + (" " + y) && (" " + y)[1..] == y
  {
  }

  /** A plain pair, a space, and a text that decodes: the pair is prepended to its decoding. */
  lemma DecodeJoin(f: Field, y: string, more: seq<Field>)
    requires Plain(f) && Decode(y) == Some(more)
    ensures Decode(EncodeField(f) + (" " + y)) == Some([f] + more)
  {
    JoinSpace(EncodeField(f), y);
    ReadBack(f, " " + y);
    DecodeCons(EncodeField(f) + (" " + y), f, " " + y);
  }

  /** A pair followed by a space: the rest after the space is decoded on its own. */
  lemma DecodeCons(t: string, f: Field, post: string)
    requires ReadField(t) == Some((f, post)) && |post| > 0 && post[0] == ' '
    ensures Decode(t) == match Decode(post[1..])
                         case None => None
                         case Some(more) => Some([f] + more)
  {
  }
}
