/** What the blocks carry that the modelled state machines read. */
module Blocks {

  datatype Target = ToShard | ToBeacon

  /** One instruction of a block body. Key lists stay in their textual, comma-separated form. `Other` stands for the
      parameter, reward and bridge instructions, which touch none of the modelled fields. */
  datatype Instruction =
    | Stake(keys: string, target: Target)
    | SwapShard(incoming: string, outgoing: string, shardID: nat)
    | SwapBeacon(incoming: string, outgoing: string)
    | Random(number: int)
    | Assign(keys: string, shardID: nat)
    | Other

  /** The beacon's record of one accepted shard block: its height and the shards it has outputs for. */
  datatype ShardEntry = ShardEntry(height: nat, crossShard: seq<nat>)

  datatype BeaconBlock = BeaconBlock(height: nat, shardState: map<nat, seq<ShardEntry>>, instructions: seq<Instruction>)

  /** What a shard block says it took over from one block of another shard. */
  datatype CrossTransaction = CrossTransaction(height: nat, content: nat)

  /** The part of a shard block that is sent to one other shard. */
  datatype CrossShardBlock = CrossShardBlock(shardID: nat, toShardID: nat, height: nat, content: nat)

  datatype ShardBlock = ShardBlock(
    height: nat,
    beaconHeight: nat,
    crossShards: seq<nat>,
    instructions: seq<Instruction>,
    crossTransactions: map<nat, seq<CrossTransaction>>)

  /** Running, stopped with an error, or stopped by a run-time panic. */
  datatype Status = Running | Errored | Panicked
}
