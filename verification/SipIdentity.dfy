/** The From header as the lower domain writes it and as the upper domain takes the id out of it. */
module SipIdentity {
  import opened Common

  const ID_LENGTH := 20
  const ID_OFFSET := 11

  class SipMessage {
    var fromHeader: string

    constructor ()
      ensures fromHeader == ""
    {
      fromHeader := "";
    }

    /** Whatever tag is added to the header, the id read out of it is the user's exactly at 20 characters. */
    method SetFrom(fromUsr: string, fromIp: string)
      modifies `fromHeader
      ensures fromHeader == FromHeader(fromUsr, fromIp) == "<sip:" + fromUsr + "@" + fromIp + ">"
      ensures forall tag {:trigger Printed(fromHeader, tag)} ::
                ParseFromId(Some(Printed(fromHeader, tag))) == Some(fromUsr) <==> |fromUsr| == 20
    {
      fromHeader := "<sip:" + fromUsr + "@" + fromIp + ">";
      forall tag ensures ParseFromId(Some(Printed(fromHeader, tag))) == Some(fromUsr) <==> |fromUsr| == 20 {
        ParsedIdIffTwentyCharacters(fromUsr, fromIp, tag);
      }
    }
  }

  function FromHeader(usr: string, ip: string): string {
    "<sip:" + usr + "@" + ip + ">"
  }

  /** The header line that the receiver prints, with the tag the sender's stack added. */
  function Printed(header: string, tag: string): string {
    "From: " + header + ";tag=" + tag
  }

  /** std::string::substr, which throws when it starts past the end. */
  function Substr(s: string, pos: nat, n: nat): Option<string> {
    if pos > |s| then None else if pos + n <= |s| then Some(s[pos..pos + n]) else Some(s[pos..])
  }

  /** The id by its place in the printed header; "" without a header, None where substr throws. */
  function ParseFromId(line: Option<string>): Option<string> {
    if line.None? || line.value == "" then Some("") else Substr(line.value, ID_OFFSET, ID_LENGTH)
  }

  /** What is read is at most 20 characters from place 11 on; a shorter line makes substr throw. */
  lemma ParsedIsTheMiddle(line: string)
    ensures ParseFromId(None) == ParseFromId(Some("")) == Some("")
    ensures line != "" && |line| < 11 ==> ParseFromId(Some(line)) == None
    ensures 11 <= |line| <= 31 ==> ParseFromId(Some(line)) == Some(line[11..])
    ensures |line| >= 31 ==> ParseFromId(Some(line)) == Some(line[11..31])
  {
    if |line| == 31 { assert line[11..31] == line[11..]; }
  }

  lemma PrintedParts(usr: string, ip: string, tag: string)
    ensures var p := Printed(FromHeader(usr, ip), tag);
            |p| >= ID_OFFSET + |usr| + 2 && p[ID_OFFSET..ID_OFFSET + |usr|] == usr
  {
    var front, rest := "From: <sip:", "@" + ip + ">" + ";tag=" + tag;
    assert Printed(FromHeader(usr, ip), tag) == front + usr + rest;
  }

  /** The handler reads the sender's id exactly when the id has 20 characters. */
  lemma ParsedIdIffTwentyCharacters(usr: string, ip: string, tag: string)
    ensures ParseFromId(Some(Printed(FromHeader(usr, ip), tag))) == Some(usr) <==> |usr| == 20
    ensures Printed(FromHeader(usr, ip), tag) == "From: <sip:" + usr + "@" + ip + ">;tag=" + tag
  {
    assert Printed(FromHeader(usr, ip), tag) == "From: <sip:" + usr + "@" + ip + ">;tag=" + tag;
    hide Printed, FromHeader;
    PrintedParts(usr, ip, tag);
  }

  /** User and address can both be read back out of a header: no two pairs without an `@` in the user have the same. */
  lemma HeaderTellsUserAndAddress(usr: string, ip: string, usr2: string, ip2: string)
    requires '@' !in usr && '@' !in usr2
    ensures FromHeader(usr, ip) == FromHeader(usr2, ip2) <==> usr == usr2 && ip == ip2
  {
    var h, h2 := FromHeader(usr, ip), FromHeader(usr2, ip2);
    HeaderParts(usr, ip);
    HeaderParts(usr2, ip2);
    hide FromHeader;
    if h == h2 { assert 5 + |usr| == 5 + |usr2|; }
  }

  lemma HeaderParts(usr: string, ip: string)
    ensures var h := FromHeader(usr, ip); var at := 5 + |usr|;
            && |h| == at + |ip| + 2 && h[..5] == "<sip:" && h[5..at] == usr && h[at] == '@'
            && h[at + 1..|h| - 1] == ip && h[|h| - 1] == '>'
            && ('@' !in usr ==> forall k :: 0 <= k < at ==> h[k] != '@')
  {
    var h := FromHeader(usr, ip);
    assert h == "<sip:" + (usr + ("@" + (ip + ">")));
    assert forall k :: 5 <= k < 5 + |usr| ==> h[k] == usr[k - 5];
  }

  /** A longer id is cut to its first 20 characters, so ids that differ only after them look alike. */
  lemma LongIdIsCut(usr: string, ip: string, tag: string)
    requires |usr| > 20
    ensures ParseFromId(Some(Printed(FromHeader(usr, ip), tag))) == Some(usr[..20])
  {
    hide Printed, FromHeader;
    PrintedParts(usr, ip, tag);
    var p := Printed(FromHeader(usr, ip), tag);
    assert p[ID_OFFSET..ID_OFFSET + ID_LENGTH] == p[ID_OFFSET..ID_OFFSET + |usr|][..ID_LENGTH];
  }

  // ---- what a header can be read as

  /** The header after the place where the id begins, up to where the tag does. */
  function BeforeTag(usr: string, ip: string): string {
    usr + "@" + ip + ">" + ";tag="
  }

  /** Some tag makes the handler read `e`: the first 20 characters, into which a short id lets the tag reach. */
  predicate ReadAs(usr: string, ip: string, e: string) {
    var b := BeforeTag(usr, ip);
    if |b| >= ID_LENGTH then e == b[..ID_LENGTH] else b <= e && |e| <= ID_LENGTH
  }

  function FirstCharacters(s: string): string {
    if |s| <= ID_LENGTH then s else s[..ID_LENGTH]
  }

  lemma ParsedAfter(front: string, rest: string)
    requires |front| == ID_OFFSET
    ensures ParseFromId(Some(front + rest)) == Some(FirstCharacters(rest))
  {
    var p := front + rest;
    assert p[ID_OFFSET..] == rest;
    if |rest| >= ID_LENGTH {
      assert p[ID_OFFSET..ID_OFFSET + ID_LENGTH] == rest[..ID_LENGTH];
      assert |rest| == ID_LENGTH ==> rest[..ID_LENGTH] == rest;
    }
  }

  lemma ParsedIs(usr: string, ip: string, tag: string)
    ensures ParseFromId(Some(Printed(FromHeader(usr, ip), tag))) == Some(FirstCharacters(BeforeTag(usr, ip) + tag))
  {
    hide ParseFromId, FirstCharacters;
    ParsedAfter("From: <sip:", BeforeTag(usr, ip) + tag);
    assert Printed(FromHeader(usr, ip), tag) == "From: <sip:" + (BeforeTag(usr, ip) + tag);
  }

  /** These are all the ids that the handler can read. */
  lemma ReadAsIff(usr: string, ip: string, e: string)
    ensures ReadAs(usr, ip, e) <==> exists tag :: ParseFromId(Some(Printed(FromHeader(usr, ip), tag))) == Some(e)
  {
    hide ParseFromId, Printed, FromHeader, BeforeTag;
    var b := BeforeTag(usr, ip);
    if ReadAs(usr, ip, e) {
      var tag := if |b| >= ID_LENGTH then "" else e[|b|..];
      ParsedIs(usr, ip, tag);
      assert |b| < ID_LENGTH ==> b + tag == e;
      assert |b| >= ID_LENGTH ==> b + tag == b;
      assert ParseFromId(Some(Printed(FromHeader(usr, ip), tag))) == Some(e);
    }
    if tag :| ParseFromId(Some(Printed(FromHeader(usr, ip), tag))) == Some(e) {
      ParsedIs(usr, ip, tag);
      if |b| >= ID_LENGTH {
        assert (b + tag)[..ID_LENGTH] == b[..ID_LENGTH];
      } else {
        assert e[..|b|] == b;
      }
    }
  }

  /** An id of 20 characters is read as itself and as nothing else. */
  lemma TwentyCharactersReadAsThemselves(usr: string, ip: string, e: string)
    requires |usr| == ID_LENGTH
    ensures ReadAs(usr, ip, e) <==> e == usr
  {
    assert BeforeTag(usr, ip)[..ID_LENGTH] == usr;
  }
}
