/** Lowering a whole program preserves its meaning. */
module CfgCorrect {
  import opened CfgSource
  import opened CfgMachine
  import opened CfgLayout
  import opened CfgSimulation
  import CfgBuild
  import CfgBuilder

  /** A program's end is an open block: the machine stops there. */
  ghost predicate Open(g: Graph, p: Point) {
    p.l in g.blocks && p.i == |g.blocks[p.l].instrs| && g.blocks[p.l].term.None?
  }

  /** The graph holds the program, from the entry block to an open end. */
  ghost predicate Lowered(g: Graph, program: Block) {
    exists lay :: BlockLaid(g, program, lay, Start(0), [], 0) && Open(g, lay.to)
  }

  method Lower(program: Block) returns (g: Graph)
    requires BlockOk(program, 0)
    ensures Lowered(g, program)
  {
    var builder := new CfgBuilder.Builder();
    var lay := builder.EmitBlock(program);
    g := builder.b.g;
    assert BlockLaid(g, program, lay, Start(0), [], 0) && Open(g, lay.to);
  }

  /** The machine started at the entry, with whatever values in its registers. */
  predicate AtEntry(cfg: Config) {
    cfg.at == Start(0)
  }

  /** The machine is at an open end of the graph after `n` steps, in the state `st`. */
  ghost predicate StopsWith(g: Graph, sem: Sem, cfg: Config, n: nat, st: State) {
    exists c :: Run(g, sem, cfg, n) == Go(c) && Open(g, c.at) && c.st == st
  }

  /** If the source program ends, with however many iterations, the machine reaches the end, in the same state. */
  lemma Terminates(g: Graph, sem: Sem, program: Block, cfg: Config, fuel: nat) returns (n: nat)
    requires Lowered(g, program) && AtEntry(cfg) && ExecBlock(sem, fuel, program, cfg.st).Done?
    ensures StopsWith(g, sem, cfg, n, ExecBlock(sem, fuel, program, cfg.st).st)
  {
    var lay :| BlockLaid(g, program, lay, Start(0), [], 0) && Open(g, lay.to);
    var c;
    n, c := BlockSim(g, sem, fuel, program, lay, Start(0), [], 0, cfg);
    assert Run(g, sem, cfg, n) == Go(c) && c.at == lay.to;
  }

  /**
    * Wherever the machine stops, for whatever reason, it is at an open end, and the source program ends in the same
    * state: no run faults, and a diverging program has a diverging lowering.
    */
  lemma Stops(g: Graph, sem: Sem, program: Block, cfg: Config, n: nat, c: Config)
    requires Lowered(g, program) && AtEntry(cfg) && Run(g, sem, cfg, n) == Go(c) && Step(g, sem, c).Stuck?
    ensures Open(g, c.at) && ExecBlock(sem, n + 1, program, cfg.st) == Done(Normal, c.st)
  {
    var lay :| BlockLaid(g, program, lay, Start(0), [], 0) && Open(g, lay.to);
    var m, d := BlockSim(g, sem, n + 1, program, lay, Start(0), [], 0, cfg);
    RunStopped(g, sem, cfg, n, c, m);
    RunStopped(g, sem, cfg, m, d, n);
  }

  /** The two directions together: the machine ends in a state if and only if the program does. */
  lemma EndsAlike(g: Graph, sem: Sem, program: Block, cfg: Config, st: State)
    requires Lowered(g, program) && AtEntry(cfg)
    ensures (exists n: nat :: StopsWith(g, sem, cfg, n, st)) <==>
              (exists fuel: nat :: ExecBlock(sem, fuel, program, cfg.st) == Done(Normal, st))
  {
    if n: nat :| StopsWith(g, sem, cfg, n, st) {
      var c :| Run(g, sem, cfg, n) == Go(c) && Open(g, c.at) && c.st == st;
      Stops(g, sem, program, cfg, n, c);
    }
    if fuel: nat :| ExecBlock(sem, fuel, program, cfg.st) == Done(Normal, st) {
      var n := Terminates(g, sem, program, cfg, fuel);
    }
  }
}
