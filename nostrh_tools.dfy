/** nostrh/cmd/tools/displayPercent.go: the upload progress bar. The bar
    is at most 100 characters and 12 fewer than the terminal is wide; its
    first `progress` positions are '=' and the rest blank, and each frame
    returns the cursor to the line's start before printing. The terminal
    width and, for each poll, the counters and the progress they give are
    inputs. */
module NostrhTools {
  import opened Base

  const MaxWidth := 100

  /** The bar width for a terminal `terminalWidth` columns wide. */
  function BarWidth(terminalWidth: int): (w: int)
    ensures w <= MaxWidth && w <= terminalWidth - 12
    ensures w == MaxWidth || w == terminalWidth - 12
  {
    var width := terminalWidth - 12;
    if width > MaxWidth then MaxWidth else width
  }

  /** The bar as a whole: `width` positions, '=' below `progress`; none at
      all for a negative width, as the loop then never runs. */
  function Bar(width: int, progress: int): (bar: string)
    ensures |bar| == if width < 0 then 0 else width
    ensures forall j :: 0 <= j < |bar| ==> bar[j] == if j < progress then '=' else ' '
  {
    if width <= 0 then "" else Bar(width - 1, progress) + [if width - 1 < progress then '=' else ' ']
  }

  /** The inner loop, one character at a time. */
  method BuildBar(width: int, progress: int) returns (bar: string)
    ensures bar == Bar(width, progress)
  {
    bar := "";
    var j := 0;
    while j < width
      invariant 0 <= j && (width >= 0 ==> j <= width) && (width < 0 ==> j == 0)
      invariant bar == Bar(j, progress)
    {
      if j < progress {
        bar := bar + "=";
      } else {
        bar := bar + " ";
      }
      j := j + 1;
    }
  }

  /** `fmt.Printf("\r[%s] %d/%d", bar, current, total)`. */
  function Frame(bar: string, current: int, total: int): string {
    "\r[" + bar + "] " + IntToDecimal(current) + "/" + IntToDecimal(total)
  }

  /** One poll: the counters and the progress computed from them. */
  datatype Poll = Poll(current: int, total: int, progress: int)

  predicate Done(p: Poll) {
    p.current >= p.total
  }

  /** The frame poll `p` prints. */
  function PollFrame(width: int, p: Poll): string {
    Frame(Bar(width, p.progress), p.current, p.total)
  }

  /** The frame each poll prints. */
  function Frames(width: int, polls: seq<Poll>): (frames: seq<string>)
    ensures |frames| == |polls|
    ensures forall k :: 0 <= k < |polls| ==> frames[k] == PollFrame(width, polls[k])
  {
    seq(|polls|, k requires 0 <= k < |polls| => PollFrame(width, polls[k]))
  }

  /** One frame, with the bar built by the inner loop. */
  method RenderFrame(width: int, p: Poll) returns (frame: string)
    ensures frame == PollFrame(width, p)
  {
    var bar := BuildBar(width, p.progress);
    frame := Frame(bar, p.current, p.total);
  }

  /** What the polling loop prints, given the frame of each poll: the
      frames up to the first poll whose count has reached the total, after
      which a newline ends the output. */
  function Output(frames: seq<string>, polls: seq<Poll>): string
    requires |frames| == |polls|
  {
    if polls == [] then ""
    else frames[0] + (if Done(polls[0]) then "\n" else Output(frames[1..], polls[1..]))
  }

  /** The polling loop over the polls it observes, with the sleeps left
      out. `finished` says whether the loop broke out. */
  method DisplayProgressBar(terminalWidth: int, polls: seq<Poll>) returns (out: string, finished: bool)
    ensures out == Output(Frames(BarWidth(terminalWidth), polls), polls)
    ensures finished <==> AnyDone(polls)
  {
    var width := BarWidth(terminalWidth);
    ghost var frames := Frames(width, polls);
    out := "";
    finished := false;
    PrintedStart(frames, polls);
    var i := 0;
    while i < |polls|
      invariant i <= |polls| && Printed(frames, polls, i, out)
      decreases |polls| - i
    {
      var frame := RenderFrame(width, polls[i]);
      var stop;
      out, stop := Emit(frames, polls, i, out, frame);
      if stop {
        finished := true;
        return;
      }
      i := i + 1;
    }
    PrintedAll(frames, polls, out);
  }

  /** The loop's state after `i` polls: none of them was done, and the
      output so far followed by what polls `i` onwards print is all of
      the output. */
  predicate Printed(frames: seq<string>, polls: seq<Poll>, i: nat, out: string) {
    |frames| == |polls| && i <= |polls| &&
    Output(frames, polls) == out + Output(frames[i..], polls[i..]) &&
    forall k :: 0 <= k < i ==> !Done(polls[k])
  }

  lemma PrintedStart(frames: seq<string>, polls: seq<Poll>)
    requires |frames| == |polls|
    ensures Printed(frames, polls, 0, "")
  {
    assert frames[0..] == frames && polls[0..] == polls;
  }

  /** Past the last poll with none done, everything has been printed. */
  lemma PrintedAll(frames: seq<string>, polls: seq<Poll>, out: string)
    requires Printed(frames, polls, |polls|, out)
    ensures out == Output(frames, polls) && !AnyDone(polls)
  {
    assert frames[|polls|..] == [] && polls[|polls|..] == [];
  }

  /** The body of the polling loop once poll `i`'s frame is rendered: print
      it, and stop after a newline when the poll is done. */
  method Emit(ghost frames: seq<string>, polls: seq<Poll>, i: nat, out: string, frame: string)
    returns (out': string, stop: bool)
    requires i < |polls| && Printed(frames, polls, i, out) && frame == frames[i]
    ensures stop <==> Done(polls[i])
    ensures stop ==> out' == Output(frames, polls) && AnyDone(polls)
    ensures !stop ==> Printed(frames, polls, i + 1, out')
  {
    OutputAdvance(frames, polls, i, out);
    if polls[i].current >= polls[i].total {
      out' := out + frame + "\n";
      stop := true;
      assert Done(polls[i]);
    } else {
      out' := out + frame;
      stop := false;
    }
  }

  /** One turn of the polling loop: the output so far grows by poll `i`'s
      frame, and by the final newline when that poll is done. */
  lemma OutputAdvance(frames: seq<string>, polls: seq<Poll>, i: nat, out: string)
    requires |frames| == |polls| && i < |polls|
    requires Output(frames, polls) == out + Output(frames[i..], polls[i..])
    ensures Done(polls[i]) ==> Output(frames, polls) == out + frames[i] + "\n"
    ensures !Done(polls[i]) ==> Output(frames, polls) == out + frames[i] + Output(frames[i + 1..], polls[i + 1..])
  {
    assert polls[i..][1..] == polls[i + 1..];
    assert frames[i..][1..] == frames[i + 1..];
    var rest := if Done(polls[i]) then "\n" else Output(frames[i + 1..], polls[i + 1..]);
    assert Output(frames[i..], polls[i..]) == frames[i] + rest;
    assert out + (frames[i] + rest) == out + frames[i] + rest;
  }

  lemma NoNewlineInDecimal(i: int)
    ensures '\n' !in IntToDecimal(i)
  {
    var r := IntToDecimal(i);
    if i < 0 {
      var n := NatToDecimal(-i);
      assert forall k :: 0 <= k < |r| ==> r[k] == '-' || r[k] == n[k - 1];
    }
  }

  /** No frame holds a newline: the bar is '=' and blanks and the counters
      are decimal numbers. */
  lemma NoNewlineInFrames(width: int, polls: seq<Poll>)
    ensures forall k :: 0 <= k < |polls| ==> '\n' !in Frames(width, polls)[k]
  {
    forall k | 0 <= k < |polls|
      ensures '\n' !in Frames(width, polls)[k]
    {
      var p := polls[k];
      assert Frames(width, polls)[k] == PollFrame(width, p);
      NoNewlineInDecimal(p.current);
      NoNewlineInDecimal(p.total);
      var bar := Bar(width, p.progress);
      assert '\n' !in bar;
    }
  }

  /** A newline-free piece in front changes neither whether a newline
      occurs nor the last character. */
  lemma NewlineAfter(f: string, rest: string)
    requires '\n' !in f
    ensures ('\n' in f + rest) <==> '\n' in rest
    ensures rest != [] ==> (f + rest)[|f + rest| - 1] == rest[|rest| - 1]
  {
    if '\n' in f + rest {
      var k :| 0 <= k < |f + rest| && (f + rest)[k] == '\n';
      assert k >= |f|;
      assert rest[k - |f|] == '\n';
    }
    if '\n' in rest {
      var k :| 0 <= k < |rest| && rest[k] == '\n';
      assert (f + rest)[|f| + k] == '\n';
    }
  }

  /** Whether some poll has reached its total. */
  predicate AnyDone(polls: seq<Poll>) {
    exists i :: 0 <= i < |polls| && Done(polls[i])
  }

  /** Past a poll that is not done, some poll is done exactly when one of
      the rest is. */
  lemma AnyDoneRest(polls: seq<Poll>)
    requires polls != [] && !Done(polls[0])
    ensures AnyDone(polls) <==> AnyDone(polls[1..])
  {
    if AnyDone(polls) {
      var i :| 0 <= i < |polls| && Done(polls[i]);
      assert Done(polls[1..][i - 1]);
    }
    if AnyDone(polls[1..]) {
      var i :| 0 <= i < |polls[1..]| && Done(polls[1..][i]);
      assert Done(polls[i + 1]);
    }
  }

  /** With newline-free frames, the output holds a newline exactly when
      the loop broke out, and then it ends with it. */
  lemma {:induction false} OutputEndsOnDone(frames: seq<string>, polls: seq<Poll>)
    requires |frames| == |polls|
    requires forall k :: 0 <= k < |frames| ==> '\n' !in frames[k]
    ensures ('\n' in Output(frames, polls)) <==> AnyDone(polls)
    ensures AnyDone(polls) ==> var out := Output(frames, polls); out[|out| - 1] == '\n'
  {
    if polls != [] {
      var rest := if Done(polls[0]) then "\n" else Output(frames[1..], polls[1..]);
      assert Output(frames, polls) == frames[0] + rest;
      NewlineAfter(frames[0], rest);
      if Done(polls[0]) {
        assert AnyDone(polls);
      } else {
        assert forall k :: 0 <= k < |frames[1..]| ==> frames[1..][k] == frames[k + 1];
        OutputEndsOnDone(frames[1..], polls[1..]);
        AnyDoneRest(polls);
      }
    }
  }

  /** What DisplayProgressBar prints holds a newline exactly when it broke
      out of its loop, and then it ends with it. */
  lemma ProgressEndsOnDone(terminalWidth: int, polls: seq<Poll>)
    ensures var out := Output(Frames(BarWidth(terminalWidth), polls), polls);
      ('\n' in out <==> AnyDone(polls)) && (AnyDone(polls) ==> out[|out| - 1] == '\n')
  {
    NoNewlineInFrames(BarWidth(terminalWidth), polls);
    OutputEndsOnDone(Frames(BarWidth(terminalWidth), polls), polls);
  }
}
