/**
 * The Description class: a language code and a text fragment cut out of
 * a descriptor's bytes.  Both loops of its constructor and the loop of
 * append copy bytes until the first zero byte; in short mode the
 * constructor also skips 0x15 bytes for as long as nothing has been kept.
 *
 * A Description object is created by add_desc for one event and never
 * shared, so it is modelled as a value; append, which extends the text in
 * place, is a method that returns the extended value.
 */
module Descriptions {
  import opened Base

  /** Language code, short flag and text, all as the bytes the program holds. */
  datatype Description = Description(lang: seq<byte>, short: bool, text: seq<byte>)

  /** The control byte that a short event descriptor's text may start with. */
  const Control: byte := 0x15

  /** Number of leading control bytes. */
  function LeadingControlCount(s: seq<byte>): (n: nat)
    ensures n <= |s|
  {
    if s != [] && s[0] == Control then 1 + LeadingControlCount(s[1..]) else 0
  }

  /** The bytes the text is taken from: in short mode the leading control
      bytes are dropped. */
  function TextSource(short: bool, bytes: seq<byte>): seq<byte>
  {
    if short then bytes[LeadingControlCount(bytes)..] else bytes
  }

  /** The text a new Description holds. */
  function InitialText(short: bool, bytes: seq<byte>): seq<byte>
  {
    TakeUntilZero(TextSource(short, bytes))
  }

  /** The Description that Description(lang, short, bytes) constructs. */
  function MakeDescription(lang: seq<byte>, short: bool, bytes: seq<byte>): Description
  {
    Description(TakeUntilZero(lang), short, InitialText(short, bytes))
  }

  /** Description.__init__: copy `lang` up to its first zero byte, then copy
      `bytes` up to their first zero byte, in short mode skipping control
      bytes while nothing has been kept yet. */
  method NewDescription(lang: seq<byte>, short: bool, bytes: seq<byte>) returns (d: Description)
    ensures d == MakeDescription(lang, short, bytes)
  {
    var l := CopyLang(lang);
    var text := CopyText(short, bytes);
    d := Description(l, short, text);
  }

  /** The constructor's first loop: the language code up to its first zero byte. */
  method CopyLang(lang: seq<byte>) returns (l: seq<byte>)
    ensures l == TakeUntilZero(lang)
  {
    l := [];
    var j := 0;
    while j < |lang|
      invariant 0 <= j <= |lang|
      invariant l == lang[..j]
      invariant forall m :: 0 <= m < j ==> lang[m] != 0
    {
      if lang[j] != 0 {
        l := l + [lang[j]];
      } else {
        break;
      }
      j := j + 1;
    }
    TakeUntilZeroUnique(lang, j);
  }

  /** The constructor's second loop: the text up to the first zero byte, in
      short mode skipping control bytes while nothing has been kept. */
  method CopyText(short: bool, bytes: seq<byte>) returns (text: seq<byte>)
    ensures text == InitialText(short, bytes)
  {
    ghost var c := if short then LeadingControlCount(bytes) else 0;
    LeadingControlShape(bytes);
    text := [];
    var i := 0;
    var k := 0;
    while k < |bytes|
      invariant 0 <= k <= |bytes|
      invariant i == |text|
      invariant k <= c ==> text == []
      invariant k >= c ==> text == bytes[c..k]
      invariant i == 0 ==> k <= c
      invariant forall m :: c <= m < k ==> bytes[m] != 0
    {
      if short && i == 0 && bytes[k] == Control {
        assert k < c;
        k := k + 1;
        continue;
      } else if bytes[k] != 0 {
        assert c <= k;
        assert bytes[c..k + 1] == bytes[c..k] + [bytes[k]];
        text := text + [bytes[k]];
      } else {
        break;
      }
      i := i + 1;
      k := k + 1;
    }
    TakeUntilZeroUnique(bytes[c..], k - c);
    assert bytes[c..][..k - c] == bytes[c..k];
  }

  /** Description.append: extend the text with `bytes` up to their first zero byte. */
  method Append(d: Description, bytes: seq<byte>) returns (d': Description)
    ensures d' == d.(text := d.text + TakeUntilZero(bytes))
  {
    var text := d.text;
    var k := 0;
    while k < |bytes|
      invariant 0 <= k <= |bytes|
      invariant text == d.text + bytes[..k]
      invariant forall m :: 0 <= m < k ==> bytes[m] != 0
    {
      if bytes[k] != 0 {
        text := text + [bytes[k]];
      } else {
        break;
      }
      k := k + 1;
    }
    TakeUntilZeroUnique(bytes, k);
    d' := d.(text := text);
  }

  /** The leading control bytes are exactly the first LeadingControlCount bytes. */
  lemma {:induction false} LeadingControlShape(s: seq<byte>)
    ensures forall m :: 0 <= m < LeadingControlCount(s) ==> s[m] == Control
    ensures LeadingControlCount(s) == |s| || s[LeadingControlCount(s)] != Control
  {
    if s != [] && s[0] == Control {
      LeadingControlShape(s[1..]);
    }
  }

  /** The constructor's text is the zero-free run of `bytes` that starts after
      the skipped control bytes (none outside short mode) and ends at the end
      of `bytes` or at a zero byte; in short mode it never starts with a
      control byte, though later control bytes are kept. */
  lemma InitialTextShape(short: bool, bytes: seq<byte>)
    ensures var c := if short then LeadingControlCount(bytes) else 0;
      var t := InitialText(short, bytes);
      && c + |t| <= |bytes|
      && t == bytes[c..c + |t|]
      && (forall m :: 0 <= m < |t| ==> t[m] != 0)
      && (c + |t| == |bytes| || bytes[c + |t|] == 0)
      && (short ==> forall m :: 0 <= m < c ==> bytes[m] == Control)
      && (short && t != [] ==> t[0] != Control)
  {
    var c := if short then LeadingControlCount(bytes) else 0;
    assert TextSource(short, bytes) == bytes[c..];
    TakeFrom(bytes, c);
    LeadingControlShape(bytes);
  }

  /** The zero-terminated run that starts at offset c, located in `bytes`. */
  lemma TakeFrom(bytes: seq<byte>, c: nat)
    requires c <= |bytes|
    ensures var t := TakeUntilZero(bytes[c..]);
      && c + |t| <= |bytes|
      && t == bytes[c..c + |t|]
      && (forall m :: 0 <= m < |t| ==> t[m] != 0)
      && (c + |t| == |bytes| || bytes[c + |t|] == 0)
  {
    var src := bytes[c..];
    TakeUntilZeroShape(src);
    assert src[..|TakeUntilZero(src)|] == bytes[c..c + |TakeUntilZero(src)|];
  }

  /** Only leading control bytes are skipped: 15 15 41 15 00 gives 41 15. */
  lemma ShortTextExample()
    ensures InitialText(true, [0x15, 0x15, 0x41, 0x15, 0x00]) == [0x41, 0x15]
    ensures InitialText(false, [0x15, 0x41, 0x00]) == [0x15, 0x41]
  {
    var s: seq<byte> := [0x15, 0x15, 0x41, 0x15, 0x00];
    assert LeadingControlCount(s) == 2 by {
      assert s[1..][1..] == [0x41, 0x15, 0x00];
    }
    assert s[2..] == [0x41, 0x15, 0x00];
    TakeUntilZeroUnique(s[2..], 2);
    var u: seq<byte> := [0x15, 0x41, 0x00];
    TakeUntilZeroUnique(u, 2);
  }
}
