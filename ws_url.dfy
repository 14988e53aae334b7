/**
 * The base URL the telemetry client dials (app/hooks/useWebSocket.ts): the
 * configured URL, or a local default when it is unset or empty, with the
 * first `ws://` turned into `http://` and then the first `wss://` into
 * `https://`, since the SockJS transport wants an HTTP(S) URL.
 */
module WsUrl {
  import opened Wrappers
  import opened Types

  const DefaultUrl: string := "http://localhost:8081"

  /** `p` occurs in `s` starting at index `i`. */
  predicate Occurs(p: string, s: string, i: nat) {
    i + |p| <= |s| && s[i..i + |p|] == p
  }

  /** `s.replace(p, r)` for a string pattern: only the first occurrence is replaced. */
  function ReplaceFirst(s: string, p: string, r: string): string
    decreases |s|
  {
    if p <= s then r + s[|p|..]
    else if s == [] then s
    else [s[0]] + ReplaceFirst(s[1..], p, r)
  }

  /** The URL handed to SockJS, from the environment variable (None when unset). */
  function BaseUrl(configured: Option<string>): string {
    var wsUrl := TextOr(configured, DefaultUrl);
    ReplaceFirst(ReplaceFirst(wsUrl, "ws://", "http://"), "wss://", "https://")
  }

  lemma OccursAtHead(p: string, s: string)
    ensures p <= s <==> Occurs(p, s, 0)
  {
    if p <= s { assert s[0..|p|] == s[..|p|]; }
  }

  /** Occurrences in the tail are occurrences in the whole, one place later. */
  lemma OccursInTail(p: string, s: string, i: nat)
    requires s != []
    ensures Occurs(p, s[1..], i) <==> Occurs(p, s, i + 1)
  {
    if i + |p| <= |s| - 1 {
      assert s[1..][i..i + |p|] == s[i + 1..i + 1 + |p|];
    }
  }

  /** With no occurrence of the pattern the string is returned unchanged. */
  lemma {:induction false} ReplaceFirstAbsent(s: string, p: string, r: string)
    requires forall i: nat :: !Occurs(p, s, i)
    ensures ReplaceFirst(s, p, r) == s
  {
    OccursAtHead(p, s);
    if !(p <= s) && s != [] {
      forall i: nat ensures !Occurs(p, s[1..], i) {
        OccursInTail(p, s, i);
      }
      ReplaceFirstAbsent(s[1..], p, r);
    }
  }

  /** The occurrences of `p` in `s` from index 1 on, seen in the tail. */
  lemma FirstOccurrenceInTail(p: string, s: string, i: nat)
    requires 0 < i && Occurs(p, s, i)
    requires forall j: nat :: j < i ==> !Occurs(p, s, j)
    ensures s != [] && Occurs(p, s[1..], i - 1)
    ensures forall j: nat :: j < i - 1 ==> !Occurs(p, s[1..], j)
  {
    OccursInTail(p, s, i - 1);
    forall j: nat | j < i - 1 ensures !Occurs(p, s[1..], j) {
      OccursInTail(p, s, j);
    }
  }

  /** Only the first occurrence is replaced; everything around it is kept. */
  lemma {:induction false} ReplaceFirstAt(s: string, p: string, r: string, i: nat)
    requires Occurs(p, s, i)
    requires forall j: nat :: j < i ==> !Occurs(p, s, j)
    ensures ReplaceFirst(s, p, r) == s[..i] + r + s[i + |p|..]
  {
    OccursAtHead(p, s);
    if i == 0 {
      assert s[..0] + r + s[|p|..] == r + s[|p|..];
    } else {
      FirstOccurrenceInTail(p, s, i);
      var head, tail := [s[0]], s[1..];
      ReplaceFirstAt(tail, p, r, i - 1);
      assert head + tail[..i - 1] == s[..i];
      assert tail[i - 1 + |p|..] == s[i + |p|..];
      calc {
        ReplaceFirst(s, p, r);
        head + ReplaceFirst(tail, p, r);
        head + (tail[..i - 1] + r + tail[i - 1 + |p|..]);
        (head + tail[..i - 1]) + r + tail[i - 1 + |p|..];
      }
    }
  }

  /** A prefix in which no occurrence starts is passed over untouched. */
  lemma {:induction false} ReplaceFirstSkipsPrefix(a: string, h: string, p: string, r: string)
    requires forall i: nat :: i < |a| ==> !Occurs(p, a + h, i)
    ensures ReplaceFirst(a + h, p, r) == a + ReplaceFirst(h, p, r)
  {
    var s := a + h;
    if a != [] {
      OccursAtHead(p, s);
      assert s[1..] == a[1..] + h;
      forall i: nat | i < |a| - 1 ensures !Occurs(p, a[1..] + h, i) {
        OccursInTail(p, s, i);
      }
      ReplaceFirstSkipsPrefix(a[1..], h, p, r);
      assert s == [a[0]] + (a[1..] + h);
      assert ReplaceFirst(s, p, r) == [a[0]] + ReplaceFirst(a[1..] + h, p, r);
    } else {
      assert s == h;
    }
  }

  /** No occurrence can start at a character that differs from the pattern's first. */
  lemma NoOccurrenceWithoutHead(p: string, s: string)
    requires p != [] && p[0] !in s
    ensures forall i: nat :: !Occurs(p, s, i)
  {
    forall i: nat ensures !Occurs(p, s, i) {
      assert i < |s| ==> s[i] in s;
    }
  }

  /** An unset or empty setting dials the local default unchanged. */
  lemma BaseUrlDefault(configured: Option<string>)
    requires configured.None? || configured.value == ""
    ensures BaseUrl(configured) == DefaultUrl
  {
    assert 'w' !in DefaultUrl;
    NoOccurrenceWithoutHead("ws://", DefaultUrl);
    NoOccurrenceWithoutHead("wss://", DefaultUrl);
    ReplaceFirstAbsent(DefaultUrl, "ws://", "http://");
    ReplaceFirstAbsent(DefaultUrl, "wss://", "https://");
  }

  /** `ws://host…` is dialled as `http://host…` (a later `wss://` in the rest is still rewritten once). */
  lemma BaseUrlOfWs(host: string)
    ensures BaseUrl(Some("ws://" + host)) == "http://" + ReplaceFirst(host, "wss://", "https://")
  {
    var s := "ws://" + host;
    assert s[..5] == "ws://";
    ReplaceFirstAt(s, "ws://", "http://", 0);
    assert s[5..] == host;
    NoOccurrenceWithoutHead("wss://", "http://");
    forall i: nat | i < |"http://"| ensures !Occurs("wss://", "http://" + host, i) {
      assert ("http://" + host)[i] == "http://"[i];
    }
    ReplaceFirstSkipsPrefix("http://", host, "wss://", "https://");
  }

  /** `wss://host…` is dialled as `https://host…` when the rest holds no `ws://`. */
  lemma BaseUrlOfWss(host: string)
    requires forall i: nat :: !Occurs("ws://", host, i)
    ensures BaseUrl(Some("wss://" + host)) == "https://" + host
  {
    var s := "wss://" + host;
    forall i: nat | i < 6 ensures !Occurs("ws://", s, i) {
      if i + 5 <= |s| {
        var k := if i == 0 then 2 else 0;
        assert s[i..i + 5][k] == s[i + k] == "wss://"[i + k] != "ws://"[k];
      }
    }
    ReplaceFirstSkipsPrefix("wss://", host, "ws://", "http://");
    ReplaceFirstAbsent(host, "ws://", "http://");
    assert s[..6] == "wss://";
    ReplaceFirstAt(s, "wss://", "https://", 0);
    assert s[6..] == host;
  }

  /** A URL with neither scheme marker anywhere is dialled as configured. */
  lemma BaseUrlUnchanged(url: string)
    requires url != ""
    requires forall i: nat :: !Occurs("ws://", url, i) && !Occurs("wss://", url, i)
    ensures BaseUrl(Some(url)) == url
  {
    ReplaceFirstAbsent(url, "ws://", "http://");
    ReplaceFirstAbsent(url, "wss://", "https://");
  }
}
