/** Reading the answer to one AT command from the serial port. A read is cut between characters; reads
    after the deadline are not in the list. */
module SerialRead {
  import opened Text
  import UrcQueue

  /** What one `port.Read` returned: its text, and whether it also failed. */
  datatype Read = Read(text: string, failed: bool)

  datatype Answer = Answered(text: string) | EmptyAnswer | ReadFailed

  /** `strings.Contains`. */
  predicate Contains(s: string, word: string) {
    exists i :: 0 <= i <= |s| && word <= s[i..]
  }

  /** The words that end an answer, wherever they stand in it. */
  predicate HasStop(s: string) { Contains(s, "OK") || Contains(s, "ERROR") || Contains(s, "+CMS ERROR:") }

  /** An answer ends with either of two words; the third contains one of them. */
  lemma {:induction false} StopExact(s: string)
    ensures HasStop(s) <==> Contains(s, "OK") || Contains(s, "ERROR")
  {
    if Contains(s, "+CMS ERROR:") {
      var i :| 0 <= i <= |s| && "+CMS ERROR:" <= s[i..];
      assert "+CMS ERROR:"[5..10] == "ERROR" && s[i..][..11] == "+CMS ERROR:";
      assert forall k :: 0 <= k < 5 ==> s[i + 5..][k] == s[i..][..11][5 + k] == "+CMS ERROR:"[5..10][k];
      assert "ERROR" <= s[i + 5..];
    }
  }

  function Texts(port: seq<Read>): string {
    if port == [] then "" else Texts(port[..|port| - 1]) + port[|port| - 1].text
  }

  /** The last of these reads ends the answer. */
  predicate Ends(port: seq<Read>)
    requires port != []
  {
    var last := port[|port| - 1];
    last.failed || (last.text != "" && HasStop(Texts(port)))
  }

  /** The reads that are made: up to the first that ends the answer. */
  predicate IsTaken(port: seq<Read>, used: nat) {
    && used <= |port|
    && (forall k :: 0 < k < used ==> !Ends(port[..k]))
    && (used == |port| || (used > 0 && Ends(port[..used])))
  }

  function Taken(port: seq<Read>): (used: nat)
    ensures IsTaken(port, used)
  { TakenFrom(port, 0) }

  function TakenFrom(port: seq<Read>, k: nat): (used: nat)
    requires k <= |port| && forall i :: 0 < i < k ==> !Ends(port[..i])
    ensures IsTaken(port, used)
    decreases |port| - k
  { if k == |port| || (k > 0 && Ends(port[..k])) then k else TakenFrom(port, k + 1) }

  /** What is read of an answer. */
  function Got(port: seq<Read>): string { Texts(port[..Taken(port)]) }

  lemma {:induction false} TakenOnce(port: seq<Read>, a: nat, b: nat)
    requires IsTaken(port, a) && IsTaken(port, b)
    ensures a == b
  {
    hide Ends;
  }

  lemma {:induction false} TextsOfNone()
    ensures Texts([]) == ""
  {
  }

  lemma {:induction false} EndsAfter(port: seq<Read>, k: nat)
    requires 0 < k <= |port|
    ensures Ends(port[..k]) <==> port[k - 1].failed || (port[k - 1].text != "" && HasStop(Texts(port[..k])))
  {
    assert port[..k][k - 1] == port[k - 1];
  }

  lemma {:induction false} TextsNext(port: seq<Read>, k: nat)
    requires k < |port|
    ensures Texts(port[..k + 1]) == Texts(port[..k]) + port[k].text
  {
    assert port[..k + 1][..k] == port[..k];
  }

  /** The loop of `sendRawLocked`. */
  method ReadAnswer(port: seq<Read>) returns (r: Answer, used: nat)
    ensures used == Taken(port)
    ensures Got(port) != "" ==> r == Answered(Got(port))
    ensures Got(port) == "" ==>
      r == if used > 0 && port[used - 1].failed then ReadFailed else EmptyAnswer
  {
    hide HasStop, Texts, Taken;
    var resp := "";
    TextsOfNone();
    assert port[..0] == [];
    used := 0;
    var ended := false;
    while used < |port| && !ended
      invariant used <= |port| && resp == Texts(port[..used])
      invariant forall k :: 0 < k < used ==> !Ends(port[..k])
      invariant ended <==> used > 0 && Ends(port[..used])
      invariant resp == "" && used > 0 ==> !port[used - 1].failed
      decreases |port| - used
    {
      TextsNext(port, used);
      var read := port[used];
      resp := resp + read.text;
      used := used + 1;
      EndsAfter(port, used);
      if read.text != "" && HasStop(resp) {
        ended := true;
      } else if read.failed {
        if read.text == "" && resp == "" {
          TakenOnce(port, used, Taken(port));
          return ReadFailed, used;
        }
        ended := true;
      }
    }
    TakenOnce(port, used, Taken(port));
    r := if resp == "" then EmptyAnswer else Answered(resp);
  }

  /** `sendRawLocked` once the command is written: the answer without its notifications. */
  method SendRaw(q: UrcQueue.Queue, port: seq<Read>) returns (r: Option<string>)
    requires q.Valid()
    modifies q
    ensures q.Valid()
    ensures r == if Got(port) == "" then None else Some(UrcQueue.Stripped(Got(port)))
    ensures q.seen == old(q.seen) + if Got(port) == "" then [] else UrcQueue.Urcs(UrcQueue.Lines(Got(port)))
  {
    hide UrcQueue.Stripped, UrcQueue.Urcs, UrcQueue.Lines, Got;
    var answer, used := ReadAnswer(port);
    match answer {
      case Answered(text) =>
        var clean := q.StoreAndStrip(text);
        r := Some(clean);
      case _ =>
        r := None;
    }
  }

  // ----- When an answer is read to its end -----

  lemma {:induction false} TextsGrow(port: seq<Read>, k: nat)
    requires k <= |port|
    ensures Texts(port[..k]) <= Texts(port)
  {
    if k < |port| {
      var n := |port| - 1;
      assert port[..n][..k] == port[..k];
      TextsGrow(port[..n], k);
    } else {
      assert port[..k] == port;
    }
  }

  lemma {:induction false} NoStopInNone()
    ensures !HasStop("")
  {
  }

  /** A stop word there is was completed by a read that is not empty. */
  lemma {:induction false} StopCompleted(port: seq<Read>, k: nat) returns (j: nat)
    requires k <= |port| && HasStop(Texts(port[..k]))
    ensures 0 < j <= k && Ends(port[..j]) && Texts(port[..j]) == Texts(port[..k])
  {
    NoStopInNone();
    assert port[..0] == [];
    j := k;
    while port[j - 1].text == ""
      invariant 0 < j <= k && Texts(port[..j]) == Texts(port[..k])
      decreases j
    {
      TextsNext(port, j - 1);
      assert Texts(port[..j]) == Texts(port[..j - 1]);
      j := j - 1;
    }
    EndsAfter(port, j);
  }

  /** The first `k` reads fail or complete a stop word. */
  predicate Stops(port: seq<Read>, k: nat)
    requires 0 < k <= |port|
  { port[k - 1].failed || HasStop(Texts(port[..k])) }

  /** What is taken of an answer is a prefix of it, and all of it exactly if nothing follows where a read
      fails or a stop word is complete. Empty reads end nothing. */
  lemma {:induction false} ReadToTheEnd(port: seq<Read>)
    ensures Got(port) <= Texts(port)
    ensures Got(port) == Texts(port) <==>
      forall k :: 0 < k <= |port| && Stops(port, k) ==> Texts(port[..k]) == Texts(port)
    ensures Got(port) == Texts(port) || (exists k :: 0 < k <= |port| && Stops(port, k) && Got(port) == Texts(port[..k]))
  {
    var used := Taken(port);
    TextsGrow(port, used);
    if used < |port| {
      EndsAfter(port, used);
      assert Stops(port, used);
    } else {
      assert port[..used] == port;
    }
    if Got(port) == Texts(port) {
      forall k | 0 < k <= |port| && Stops(port, k) ensures Texts(port[..k]) == Texts(port) {
        StoppedAt(port, used, k);
      }
    }
  }

  /** A stop is at the reads taken or after them, or followed by empty reads up to there. */
  lemma {:induction false} StoppedAt(port: seq<Read>, used: nat, k: nat)
    requires IsTaken(port, used) && 0 < k <= |port| && Stops(port, k) && Texts(port[..used]) == Texts(port)
    ensures Texts(port[..k]) == Texts(port)
  {
    TextsGrow(port, k);
    EndsAfter(port, k);
    if k >= used {
      assert port[..k][..used] == port[..used];
      TextsGrow(port[..k], used);
    } else if !port[k - 1].failed {
      var j := StopCompleted(port, k);
    }
  }
}
