/** Letter case in a configuration: names can be written and asked for in any of it. */
module IniSpelling {
  import opened Common
  import opened IniText
  import opened IniReader
  import opened IniWriting

  /** The same character, or one letter in two cases. */
  predicate SameLetter(c: char, d: char) {
    c == d || ('A' <= c <= 'Z' && d as int == c as int + 32) || ('A' <= d <= 'Z' && c as int == d as int + 32)
  }

  predicate Respelled(a: string, b: string) {
    |a| == |b| && forall i :: 0 <= i < |a| ==> SameLetter(a[i], b[i])
  }

  predicate RespelledEntry(e: Entry, f: Entry) {
    match e
    case Entry(key, before, after, value) => f.Entry? && Respelled(key, f.key) &&
      f == Entry(f.key, before, after, value)
    case Filler(_) => f == e
  }

  predicate RespelledSec(x: Sec, y: Sec) {
    && Respelled(x.name, y.name) && |x.entries| == |y.entries|
    && forall i :: 0 <= i < |x.entries| ==> RespelledEntry(x.entries[i], y.entries[i])
  }

  /** The same sections and lines, with section names and keys in other letter case. */
  predicate RespelledSecs(ss: seq<Sec>, rs: seq<Sec>) {
    |ss| == |rs| && forall i :: 0 <= i < |ss| ==> RespelledSec(ss[i], rs[i])
  }

  /** A name answers for another exactly if a respelling of it is the other's beginning. */
  lemma CiPrefixIff(a: string, b: string)
    ensures CiPrefix(a, b) <==> |a| <= |b| && Respelled(a, b[..|a|])
  {
    forall i | 0 <= i < |a| <= |b| ensures SameLetter(a[i], b[i]) <==> Lower(a[i]) == Lower(b[i]) {
      LowerAlike(a[i], b[i]);
    }
  }

  lemma CiPrefixRespelled(a: string, b: string, c: string, d: string)
    requires Respelled(a, c) && Respelled(b, d)
    ensures CiPrefix(a, b) <==> CiPrefix(c, d)
  {
    hide Lower;
    forall i | 0 <= i < |a| ensures Lower(a[i]) == Lower(c[i]) { LowerAlike(a[i], c[i]); }
    forall i | 0 <= i < |b| ensures Lower(b[i]) == Lower(d[i]) { LowerAlike(b[i], d[i]); }
  }

  lemma {:induction false} FirstValueRespelled(es: seq<Entry>, fs: seq<Entry>, key: string, asked: string)
    requires |es| == |fs| && forall i :: 0 <= i < |es| ==> RespelledEntry(es[i], fs[i])
    requires Respelled(key, asked)
    ensures FirstValue(es, key) == FirstValue(fs, asked)
    decreases |es|
  {
    hide CiPrefix, Respelled;
    if es != [] {
      assert RespelledEntry(es[0], fs[0]);
      if es[0].Entry? { CiPrefixRespelled(es[0].key, key, fs[0].key, asked); }
      FirstValueRespelled(es[1..], fs[1..], key, asked);
    }
  }

  lemma {:induction false} FirstOfSecsRespelled(ss: seq<Sec>, rs: seq<Sec>, section: string, key: string,
    asked: string, askedKey: string)
    requires RespelledSecs(ss, rs) && Respelled(section, asked) && Respelled(key, askedKey)
    ensures FirstOfSecs(ss, section, key) == FirstOfSecs(rs, asked, askedKey)
    decreases |ss|
  {
    hide CiPrefix, Respelled, FirstValue;
    if ss != [] {
      assert RespelledSec(ss[0], rs[0]);
      CiPrefixRespelled(ss[0].name, section, rs[0].name, asked);
      FirstValueRespelled(ss[0].entries, rs[0].entries, key, askedKey);
      FirstOfSecsRespelled(ss[1..], rs[1..], section, key, asked, askedKey);
    }
  }

  lemma EntryStaysGood(e: Entry, f: Entry)
    requires GoodEntry(e) && RespelledEntry(e, f)
    ensures GoodEntry(f)
  {
    if e.Entry? {
      assert forall i :: 0 <= i < |e.key| ==> SameLetter(e.key[i], f.key[i]);
    }
  }

  lemma SecsStayGood(ss: seq<Sec>, rs: seq<Sec>)
    requires RespelledSecs(ss, rs) && forall i :: 0 <= i < |ss| ==> GoodSec(ss[i])
    ensures forall i :: 0 <= i < |rs| ==> GoodSec(rs[i])
  {
    hide GoodEntry, RespelledEntry;
    forall i | 0 <= i < |rs| ensures GoodSec(rs[i]) {
      assert RespelledSec(ss[i], rs[i]) && GoodSec(ss[i]);
      forall j | 0 <= j < |rs[i].entries| ensures GoodEntry(rs[i].entries[j]) {
        EntryStaysGood(ss[i].entries[j], rs[i].entries[j]);
      }
    }
  }

  /** Letter case changes nothing: neither in the file's section names and keys nor in the names asked for. */
  lemma SpellingAside(head: seq<Entry>, ss: seq<Sec>, rs: seq<Sec>, eol: string, section: string, key: string,
    asked: string, askedKey: string)
    requires GoodEnd(eol) && GoodHead(head) && (forall i :: 0 <= i < |ss| ==> GoodSec(ss[i])) && RespelledSecs(ss, rs)
    requires Respelled(section, asked) && Respelled(key, askedKey)
    ensures Value(RenderFile(head, ss, eol), section, key) == Value(RenderFile(head, rs, eol), asked, askedKey)
  {
    hide GoodSec, RespelledSecs, Respelled, Value, RenderFile, FirstOfSecs;
    SecsStayGood(ss, rs);
    WrittenValue(head, ss, eol, section, key);
    WrittenValue(head, rs, eol, asked, askedKey);
    FirstOfSecsRespelled(ss, rs, section, key, asked, askedKey);
  }

  /** A file of one section with one line. */
  lemma OneLineFile(name: string, key: string, value: string, section: string, asked: string)
    requires GoodSec(Sec(name, [Entry(key, "", "", value)])) && CiPrefix(name, section) && CiPrefix(key, asked)
    ensures Value("[" + name + "]\n" + key + "=" + value + "\n", section, asked) == Some(value)
  {
    hide GoodSec, CiPrefix, Value;
    var e := Entry(key, "", "", value);
    var sec := Sec(name, [e]);
    OneEntry(e, asked);
    assert [sec][1..] == [];
    RenderNone("\n");
    assert RenderSecs([sec], "\n") == "[" + name + "]\n" + key + "=" + value + "\n";
    assert RenderFile([], [sec], "\n") == RenderSecs([sec], "\n");
    WrittenValue([], [sec], "\n", section, asked);
  }

  lemma OneEntry(e: Entry, key: string)
    requires e.Entry? && e.before == e.after == "" && CiPrefix(e.key, key)
    ensures RenderEntries([e], "\n") == e.key + "=" + e.value + "\n" && FirstValue([e], key) == Some(e.value)
  {
    assert [e][1..] == [];
    RenderNone("\n");
    assert Content(e) == e.key + "=" + e.value;
  }

  lemma CapitalsFit()
    ensures CiPrefix("SIPSERVER", "sipserver") && CiPrefix("SIP_ID", "sip_id")
  {
  }

  lemma CapitalsGood()
    ensures GoodSec(Sec("SIPSERVER", [Entry("SIP_ID", "", "", "3402")]))
  {
    assert GoodKey("SIP_ID") && GoodValue("3402");
  }

  /** One file in capitals, asked in small letters. */
  lemma CapitalsAreFound()
    ensures Value("[SIPSERVER]\nSIP_ID=3402\n", "sipserver", "sip_id") == Some("3402")
  {
    hide Value, GoodSec, CiPrefix;
    CapitalsFit();
    CapitalsGood();
    OneLineFile("SIPSERVER", "SIP_ID", "3402", "sipserver", "sip_id");
    assert "[SIPSERVER]\nSIP_ID=3402\n" == "[" + "SIPSERVER" + "]\n" + "SIP_ID" + "=" + "3402" + "\n";
  }
}
