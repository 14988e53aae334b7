/**
 * The temperature chart (app/components/temperatureChart.tsx). Its plotted
 * points, `chartData`, are replaced whenever its `data` or `type` props
 * change: a realtime chart appends the whole of `data` to what it already
 * plots and keeps the last MAX_POINTS; a historical chart plots `data` as is.
 */
module TemperatureChart {
  import opened Types
  import opened Window

  const MaxPoints: nat := 20

  /** The `type` prop. */
  datatype ChartKind = Realtime | Historical

  /** The points plotted after a change of props, given those plotted before. */
  function ChartUpdate(prev: seq<TemperatureData>, data: seq<TemperatureData>, kind: ChartKind): (r: seq<TemperatureData>)
    ensures kind == Historical ==> r == data
    ensures kind == Realtime ==> |r| == Min(|prev| + |data|, MaxPoints)
    ensures kind == Realtime ==> r == (prev + data)[|prev| + |data| - |r|..]
    ensures kind == Realtime && data != [] ==> r[|r| - 1] == data[|data| - 1]
    ensures kind == Realtime && data == [] && |prev| <= MaxPoints ==> r == prev
  {
    match kind
    case Realtime =>
      var r := SliceLast(prev + data, MaxPoints);
      assert data != [] ==> (prev + data)[|prev| + |data| - 1] == data[|data| - 1];
      assert data == [] ==> prev + data == prev;
      r
    case Historical => data
  }

  /** All the windows, one after another. */
  function Flatten<T>(windows: seq<seq<T>>): seq<T> {
    if windows == [] then [] else Flatten(windows[..|windows| - 1]) + windows[|windows| - 1]
  }

  /** The realtime chart's points after it is handed `windows`, one prop change each. */
  function Replay(prev: seq<TemperatureData>, windows: seq<seq<TemperatureData>>): seq<TemperatureData> {
    if windows == [] then prev
    else ChartUpdate(Replay(prev, windows[..|windows| - 1]), windows[|windows| - 1], Realtime)
  }

  /**
   * However many prop changes it sees, a realtime chart plots the last
   * MAX_POINTS of everything it was ever handed, in the order handed: a
   * point handed in two windows is plotted twice.
   */
  lemma {:induction false} ReplayKeepsLastOfAll(prev: seq<TemperatureData>, windows: seq<seq<TemperatureData>>)
    requires |prev| <= MaxPoints
    ensures Replay(prev, windows) == SliceLast(prev + Flatten(windows), MaxPoints)
  {
    if windows == [] {
      assert prev + Flatten(windows) == prev;
    } else {
      var init, last := windows[..|windows| - 1], windows[|windows| - 1];
      ReplayKeepsLastOfAll(prev, init);
      SliceLastAppend(prev + Flatten(init), last, MaxPoints);
      assert prev + Flatten(init) + last == prev + Flatten(windows);
    }
  }

  /** The chart component's state. */
  class Chart {
    var chartData: seq<TemperatureData>

    constructor ()
      ensures chartData == []
    {
      chartData := [];
    }

    /** The effect on `[data, type]`. */
    method OnPropsChange(data: seq<TemperatureData>, kind: ChartKind)
      modifies this
      ensures chartData == ChartUpdate(old(chartData), data, kind)
    {
      if kind == Realtime {
        chartData := SliceLast(chartData + data, MaxPoints);
      } else {
        chartData := data;
      }
    }
  }
}
