/**
  The WLAN profile document the network manager imports for a network that has
  no saved profile yet: a WPA2-Personal profile in Microsoft's WLAN_profile
  schema (namespace `http://www.microsoft.com/networking/WLAN/profile/v1`).
 */
module WlanProfile {
  import opened Wrappers
  import opened Text
  import opened Profiles

  /** A closing tag. */
  function EndTag(name: string): (t: string)
    ensures t != [] && t[0] == '<'
  {
    "</" + name + ">"
  }

  const AuthElement: string := "<authentication>WPA2PSK</authentication>"
  const EncElement: string := "<encryption>AES</encryption>"

  /** The fixed text before the first SSID, between the SSIDs, before the passphrase and after it. */
  const DocHead: string := "<?xml version=\"1.0\"?>\n<WLANProfile xmlns=\"http://www.microsoft.com/networking/WLAN/profile/v1\">\n    <name>"
  const DocSsid: string := EndTag("name") + "\n    <SSIDConfig>\n        <SSID>\n            <name>"
  const DocKey: string :=
    EndTag("name") + "\n        </SSID>\n    </SSIDConfig>\n    <connectionType>ESS</connectionType>\n    <connectionMode>auto</connectionMode>\n    <MSM>\n        <security>\n            <authEncryption>\n                "
    + AuthElement + "\n                " + EncElement
    + "\n                <useOneX>false</useOneX>\n            </authEncryption>\n            <sharedKey>\n                <keyType>passPhrase</keyType>\n                <protected>false</protected>\n                <keyMaterial>"
  const DocTail: string := EndTag("keyMaterial") + "\n            </sharedKey>\n        </security>\n    </MSM>\n</WLANProfile>"

  /** The text up to the first occurrence of `c`. */
  function TakeUntil(s: string, c: char): (p: string)
    ensures p <= s && c !in p
    ensures |p| < |s| ==> s[|p|] == c
  {
    if s == [] || s[0] == c then [] else [s[0]] + TakeUntil(s[1..], c)
  }

  /**
    A document with one field written twice and another written once between fixed
    texts: `head`, the first field, `middle`, the first field again, `beforeSecond`,
    the second field, `tail`.
   */
  datatype Template = Template(head: string, middle: string, beforeSecond: string, tail: string) {
    function Fill(first: string, second: string): string {
      head + first + middle + first + beforeSecond + second + tail
    }

    /** Each fixed text after a field starts with '<', which ends the field. */
    predicate Delimited() {
      && middle != [] && middle[0] == '<'
      && beforeSecond != [] && beforeSecond[0] == '<'
      && tail != [] && tail[0] == '<'
    }

    /** Reads the fields back, each up to the next '<'; both copies of the first field must agree. */
    function Read(doc: string): Option<Profile> {
      if head <= doc then ReadFirst(doc[|head|..]) else None
    }

    function ReadFirst(a: string): Option<Profile> {
      var name := TakeUntil(a, '<');
      var b := a[|name|..];
      if middle <= b then ReadAgain(name, b[|middle|..]) else None
    }

    function ReadAgain(name: string, c: string): Option<Profile> {
      var name2 := TakeUntil(c, '<');
      var d := c[|name2|..];
      if name2 == name && beforeSecond <= d then ReadSecond(name, d[|beforeSecond|..]) else None
    }

    function ReadSecond(name: string, e: string): Option<Profile> {
      var key := TakeUntil(e, '<');
      if e[|key|..] == tail then Some(Profile(name, key)) else None
    }
  }

  /** The template of the application's profile documents. */
  const Wpa2Personal: Template := Template(DocHead, DocSsid, DocKey, DocTail)

  /** The WLAN profile for a WPA2-Personal (AES) network: the SSID in both `<name>` elements, the passphrase in `<keyMaterial>`, unescaped. */
  function ProfileDocument(ssid: string, password: string): string {
    Wpa2Personal.Fill(ssid, password)
  }

  /** Reads a profile document back. */
  function ReadDocument(doc: string): Option<Profile> {
    Wpa2Personal.Read(doc)
  }

  lemma TakeUntilPrefix(x: string, y: string, c: char)
    requires c !in x && y != [] && y[0] == c
    ensures TakeUntil(x + y, c) == x
  {
    if x != [] {
      assert (x + y)[1..] == x[1..] + y;
      TakeUntilPrefix(x[1..], y, c);
    }
  }

  /** The application's template is delimited: each of its fixed texts after a field starts with a closing tag. */
  lemma Wpa2PersonalDelimited()
    ensures Wpa2Personal.Delimited()
  {
    var n := EndTag("name");
    assert n[0] == '<';
  }

  /** A delimited template reads back the fields it was filled with, when neither contains '<'. */
  lemma TemplateRoundTrip(t: Template, first: string, second: string)
    requires t.Delimited() && '<' !in first && '<' !in second
    ensures t.Read(t.Fill(first, second)) == Some(Profile(first, second))
  {
    var rest := t.middle + first + t.beforeSecond + second + t.tail;
    var doc := t.Fill(first, second);
    assert doc == t.head + (first + rest);
    assert t.head <= doc;
    assert doc[|t.head|..] == first + rest;
    ReadFirstOf(t, first, second);
  }

  lemma ReadFirstOf(t: Template, first: string, second: string)
    requires t.Delimited() && '<' !in first && '<' !in second
    ensures t.ReadFirst(first + (t.middle + first + t.beforeSecond + second + t.tail)) == Some(Profile(first, second))
  {
    var rest := t.middle + first + t.beforeSecond + second + t.tail;
    TakeUntilPrefix(first, rest, '<');
    assert (first + rest)[|first|..] == rest;
    assert rest == t.middle + (first + (t.beforeSecond + second + t.tail));
    ReadAgainOf(t, first, second);
  }

  lemma ReadAgainOf(t: Template, first: string, second: string)
    requires t.Delimited() && '<' !in first && '<' !in second
    ensures t.ReadAgain(first, first + (t.beforeSecond + second + t.tail)) == Some(Profile(first, second))
  {
    var rest := t.beforeSecond + second + t.tail;
    TakeUntilPrefix(first, rest, '<');
    assert (first + rest)[|first|..] == rest;
    assert rest == t.beforeSecond + (second + t.tail);
    TakeUntilPrefix(second, t.tail, '<');
    assert (second + t.tail)[|second|..] == t.tail;
  }

  /** The profile document reads back as the SSID and passphrase it was made of, when neither contains '<'. */
  lemma DocumentRoundTrip(ssid: string, password: string)
    requires '<' !in ssid && '<' !in password
    ensures ReadDocument(ProfileDocument(ssid, password)) == Some(Profile(ssid, password))
  {
    Wpa2PersonalDelimited();
    TemplateRoundTrip(Wpa2Personal, ssid, password);
  }

  /** The passphrase goes in unescaped: one containing '<' does not read back. */
  lemma DocumentUnescaped(ssid: string, password: string)
    requires '<' in password
    ensures ReadDocument(ProfileDocument(ssid, password)) != Some(Profile(ssid, password))
  {
  }

  /** The document declares WPA2-Personal authentication with AES encryption. */
  lemma DocumentSecurity(ssid: string, password: string)
    ensures Contains(ProfileDocument(ssid, password), AuthElement)
    ensures Contains(ProfileDocument(ssid, password), EncElement)
  {
    var pre := DocHead + ssid + DocSsid + ssid;
    assert ProfileDocument(ssid, password) == pre + DocKey + password + DocTail;
    SecurityElements();
    ContainsRight(pre, DocKey, AuthElement);
    ContainsLeft(pre + DocKey, password, AuthElement);
    ContainsLeft(pre + DocKey + password, DocTail, AuthElement);
    ContainsRight(pre, DocKey, EncElement);
    ContainsLeft(pre + DocKey, password, EncElement);
    ContainsLeft(pre + DocKey + password, DocTail, EncElement);
  }

  /** The fixed text before the passphrase holds both security elements. */
  lemma SecurityElements()
    ensures Contains(DocKey, AuthElement) && Contains(DocKey, EncElement)
  {
    ContainsAt(AuthElement, AuthElement, 0);
    ContainsAt(EncElement, EncElement, 0);
    var k0 := EndTag("name") + "\n        </SSID>\n    </SSIDConfig>\n    <connectionType>ESS</connectionType>\n    <connectionMode>auto</connectionMode>\n    <MSM>\n        <security>\n            <authEncryption>\n                ";
    var k1 := "\n                ";
    var k2 := "\n                <useOneX>false</useOneX>\n            </authEncryption>\n            <sharedKey>\n                <keyType>passPhrase</keyType>\n                <protected>false</protected>\n                <keyMaterial>";
    assert DocKey == k0 + AuthElement + k1 + EncElement + k2;
    ContainsRight(k0, AuthElement, AuthElement);
    ContainsLeft(k0 + AuthElement, k1, AuthElement);
    ContainsLeft(k0 + AuthElement + k1, EncElement, AuthElement);
    ContainsLeft(k0 + AuthElement + k1 + EncElement, k2, AuthElement);
    ContainsRight(k0 + AuthElement + k1, EncElement, EncElement);
    ContainsLeft(k0 + AuthElement + k1 + EncElement, k2, EncElement);
  }
}
